# farstack authentication core, modelled in Dafny

farstack is a demo backend for Sign In With Farcaster. A client posts a signed
sign-in response to `POST /auth`. The server has it checked by the Farcaster
auth client and returns a JSON Web Token. `GET /me` is protected by a bearer-token
middleware that verifies that token and attaches the decoded user to the request.

This project models the server's own logic in those two steps:

- `authenticateToken` (`server/src/middleware.ts`) takes its decisions in a fixed
  order: signing secret present, `Authorization` header present, `Bearer ` prefix
  (case-sensitive), non-empty token at index 1 of `header.split(' ')`, `jwt.verify`
  succeeds, and the payload carries a truthy `user`.
  - `Middleware.Authenticate` is that decision as a function.
  - `Middleware.AuthenticateToken` is the middleware itself. It works on a
    `Request` object whose `user` field it writes only on success, a `Response`
    object that records the replies written to it, and a `NextFunction` object
    that counts its calls. It is proved to do exactly what `Authenticate` decides.
- `validateFarcasterSignature` (`server/src/lib.ts`) is a guard, then at most one
  call to `verifySignInMessage`, and then a reduction to a boolean.
  `Farcaster.ValidateFarcasterSignature` returns both the boolean and the list of
  verifier calls it made, so "not called" and "called once with exactly these
  arguments" can be stated.

Supporting modules:

- `Text` models the two JavaScript string operations the middleware calls:
  `startsWith` and `split` on one character. It also defines `join`, which the
  middleware never calls, as the inverse that `split` is proved against.
- `Json` models JSON values, JavaScript truthiness, and property reads
  (`null.user` throws).
- `Wrappers` holds `Option`; `None` stands for `undefined`.

Foreign code is passed in as function parameters and left uninterpreted:

- `jwt.verify(token, secret)` is a `Verifier`. It returns an error or a decoded
  payload.
- `verifySignInMessage(args)` is a `SignInVerifier`. It resolves with a `success`
  flag or rejects.
- `process.env` is a map passed to `AuthenticateToken`.

Four behaviours of the source are easy to miss:

- `server/src/index.ts:16` already refuses to start without `JWT_SECRET`. The
  middleware still checks it again on every request
  (`server/src/middleware.ts:10-11`, caught at 44-47) and answers 500
  `internal server error`. The model has that per-request check.
- The user check (`server/src/middleware.ts:36`) tests JavaScript truthiness. An
  empty object `{}` is accepted, while `0`, `false`, `""` and `null` get 401
  `invalid user`. The model uses truthiness (`Json.Truthy`).
- A decoded payload of `null` makes `payload.user` throw. The verify callback runs
  inside `jwt.verify` and therefore inside the `try`, so the catch answers 500.
  The model has this branch.
- The request body reaches `validateFarcasterSignature` through an unchecked
  cast (`server/src/index.ts:31`). The guard (`server/src/lib.ts:9-15`) only tests
  truthiness, so truthy non-string fields such as
  `{"message": 1, "signature": true, "nonce": {}}` pass it and are forwarded to
  the verifier. The model keeps the body and its fields as JSON values.

## Model

| member | source | states |
|---|---|---|
| `Middleware.Authenticate` | server/src/middleware.ts:9-47 | An accepted request had a secret, a header, the exact `Bearer ` prefix, a non-empty token, a verified payload and a truthy `user`. The accepted user is that payload's `user` property. Rejections use only 401 (always `invalid user`), 403 and 500 (always `internal server error`). |
| `Middleware.AuthenticateToken` | server/src/middleware.ts:4-48 | Exactly one of two things happens. Either one `{ error }` reply with the decided status is appended and `req.user` and `next` are untouched, or `req.user` becomes the payload's user, `next` is called once and no reply is written. The headers are never changed. |
| `Middleware.AcceptIff` | server/src/middleware.ts:9-43 | The request is accepted if and only if every check passes in order, ending with a truthy `user` in the verified payload. |
| `Middleware.SecretCheckedFirst` | server/src/middleware.ts:10-11 | With no secret, or an empty one, the answer is 500 `internal server error` whatever the header and token are. The throw is caught at lines 44-47. |
| `Middleware.MissingHeaderRejected` | server/src/middleware.ts:13-16 | With a secret but no header, or an empty one, the answer is 403 `missing authorization header`. |
| `Middleware.WrongSchemeRejected` | server/src/middleware.ts:18-23 | A non-empty header whose first seven characters are not exactly `Bearer ` gets 403 with the format hint. |
| `Middleware.SchemeIsCaseSensitive` | server/src/middleware.ts:18-23 | `bearer abc` and `Token abc` get the format hint, not the missing-header message. |
| `Middleware.TokenIsSecondPart` | server/src/middleware.ts:25 | For `Bearer ` followed by `rest`, index 1 of the split exists and is the first space-free part of `rest`. |
| `Middleware.TokenEmptyIff` | server/src/middleware.ts:25-28 | Every header that passes the scheme check has a part at index 1. That part is empty if and only if the header is exactly `Bearer ` or the prefix is followed by another space. |
| `Middleware.TokenExamples` | server/src/middleware.ts:25 | `Bearer ` and `Bearer  abc` (two spaces) give the empty token; `Bearer a b` gives `a`. |
| `Middleware.MissingTokenRejected` | server/src/middleware.ts:26-28 | A well-schemed header without a usable token gets 403 `missing authorization token`. |
| `Middleware.EmptyTokenRejected` | server/src/middleware.ts:25-28 | `Bearer ` followed by nothing or by a space gets 403 `missing authorization token`. |
| `Middleware.EmptyTokenExamples` | server/src/middleware.ts:25-28 | `Bearer ` and `Bearer  abc` get 403 `missing authorization token`. |
| `Middleware.OnlyTokenPartMatters` | server/src/middleware.ts:25-30 | Two well-schemed headers with the same part at index 1 get the same outcome. |
| `Middleware.ExtraPartIgnored` | server/src/middleware.ts:25-30 | `Bearer a b` has the same outcome as `Bearer a`. |
| `Middleware.VerifierConsultedLast` | server/src/middleware.ts:13-30 | If a header check fails, the verifier's behaviour cannot change the outcome. |
| `Middleware.RefusedTokenRejected` | server/src/middleware.ts:30-33 | A token the JWT library refuses gets 403 `token is invalid or expired`. |
| `Middleware.UserRequired` | server/src/middleware.ts:36-38 | A verified non-null payload without a truthy `user` gets 401 `invalid user`. |
| `Middleware.AcceptsExactlyTheUser` | server/src/middleware.ts:30-42 | `Bearer <token>`, with a non-empty space-free token that verifies to an object with a truthy `user`, is accepted with exactly that `user`. |
| `Middleware.TokenOf` | server/src/middleware.ts:25 | `header.split(' ')[1]` exists if and only if the header contains a space, and the token it gives contains no space. |
| `Middleware.SingleCharToken` | server/src/middleware.ts:25 | `Bearer a` gives the token `a`. |
| `Middleware.Response.Send` | server/src/middleware.ts:15 | `res.status(s).json(body)` appends exactly one reply with that status and body, and nothing else changes. |
| `Middleware.NextFunction.Call` | server/src/middleware.ts:42 | `next()` raises the call count by exactly one. |
| `Middleware.Lookup` | server/src/middleware.ts:10-13 | Reading `process.env` or `req.headers` gives a value if and only if the key is present, and then it gives the stored value. |
| `Middleware.ErrorBody` | server/src/middleware.ts:15 | Every error reply body is an object whose only field is `error`, holding the message. The same shape is used at lines 19-22, 27, 32, 37 and 46. |
| `Middleware.NullPayloadIsInternalError` | server/src/middleware.ts:36-46 | A token that verifies to a `null` payload makes `payload.user` throw, and the catch answers 500 `internal server error`, not 401. |
| `Json.Present` | server/src/middleware.ts:11-14 | The `!x` test on an optional string fails if and only if the value is present and truthy, that is, not `""`. The same test is used on the token at line 26. |
| `Json.Property` | server/src/middleware.ts:36 | `payload.user` throws if and only if the payload is `null`. It yields a value if and only if the payload is an object with a `user` field, and then it yields that field. |
| `Json.Truthy` | server/src/middleware.ts:36 | A JSON value is truthy if and only if it is none of `null`, `false`, `0` and `""`. |
| `Text.StartsWith` | server/src/middleware.ts:18 | `startsWith` holds if and only if the prefix fits and equals the string's first characters. |
| `Text.Split` | server/src/middleware.ts:25 | `split` returns one more part than there are separators, and no part contains the separator. |
| `Text.JoinSplit` | server/src/middleware.ts:25 | Joining the parts of a split with the separator gives back the original string. |
| `Text.SplitJoin` | server/src/middleware.ts:25 | Splitting a join of one or more separator-free parts gives back those parts. |
| `Text.SplitAfterPiece` | server/src/middleware.ts:25 | A separator-free piece followed by the separator comes off as the split's first part, and the rest splits on its own. |
| `Farcaster.Complete` | server/src/lib.ts:9-15 | Only an object body can pass the guard. It passes only with a non-empty domain and truthy `message`, `signature` and `nonce` fields. |
| `Farcaster.TruthyField` | server/src/lib.ts:11-14 | `!body.key` is false if and only if the body is an object whose `key` field is present and truthy. |
| `Farcaster.Forwarded` | server/src/lib.ts:20-24 | The forwarded `message`, `signature` and `nonce` are exactly what reading those properties of the body gives, and the domain is the caller's argument. |
| `Farcaster.Settle` | server/src/lib.ts:25-27 | The promise's outcome becomes `true` if and only if the call resolved with `success` true. A rejection gives `false`. |
| `Farcaster.ValidateFarcasterSignature` | server/src/lib.ts:3-29 | The verifier is called at most once. It is not called if and only if the guard fails: an empty domain, an undefined or falsy body, or a falsy `message`, `signature` or `nonce`. A call passes exactly the body's three fields and the domain. The result is true if and only if that call resolved with `success`. |
| `Farcaster.IncompleteNeverVerified` | server/src/lib.ts:9-17 | Input that fails the guard gives `false` with no verifier call. |
| `Farcaster.NonStringFieldsForwarded` | server/src/lib.ts:11-24 | `{"message": 1, "signature": true, "nonce": {}}` passes the guard, and those three values are forwarded unchanged. |
| `Farcaster.RejectionIsFalse` | server/src/lib.ts:20-27 | A rejected verifier call gives `false`; the rejection does not propagate. |
| `Farcaster.OnlyForwardedFieldsMatter` | server/src/lib.ts:19-24 | Two object bodies that agree on `message`, `signature` and `nonce` give the same run. The verifier's answers on other arguments do not matter. |
| `Farcaster.TrueIff` | server/src/lib.ts:19-27 | The result is true if and only if the guard passes and the verifier resolves with `success` for the forwarded arguments. |

## Left out

- JWT cryptography, expiry and not-before checks inside `jsonwebtoken` are left out: `jwt.verify` is an uninterpreted `Verifier`.
- Token issuing (`jwt.sign` with a one-hour lifetime in `server/src/index.ts`) is left out. So is the issue-then-verify round trip. `AcceptsExactlyTheUser` states only the verifying half.
- Sign-In-With-Farcaster message parsing and signature recovery inside `verifySignInMessage` are left out: it is an uninterpreted `SignInVerifier`.
- Promise and callback mechanics are left out. Each asynchronous call is one synchronous result. The `.catch` followed by a second `resolve(false)` is modelled as a rejection settling to `false`. A verifier that threw synchronously would leave the outer promise pending; the auth client's function is asynchronous, so this case is not modelled.
- An exception thrown by `next()` or by `res.json` is left out. Both are downstream library or route code.
- Express and Node header handling is left out: name lower-casing, repeated headers, and trimming of whitespace around values. `req.headers` is a map from lower-case names to one string each, as the middleware sees them. The header examples (`"Bearer "`, `"Bearer  abc"`) are values of `req.headers`, not raw request text: a raw `Authorization: Bearer ` line would arrive trimmed, as `Bearer`, and would get the format hint.
- The routes in `server/src/index.ts` are thin wrappers and are not modelled. For context: `POST /auth` answers 400 for a missing `Origin` before the validator runs, and derives the domain with `new URL(origin).host`.
- `client/src/App.tsx` is not part of this model: it is browser UI, cookie storage and `fetch`.
- `server/src/types/index.ts` is not part of this model: it only declares types. The user payload is an arbitrary JSON value.
- JSON numbers are reals holding the value after parsing. Parsing itself is left out. So is its rounding: `1e-400` parses to `0`, which is falsy, and `1e400` parses to `Infinity`, which is truthy but is not a real.
- The `console.error` logging in the catch (`server/src/middleware.ts:45`) is left out: it is output only and does not change the response.
