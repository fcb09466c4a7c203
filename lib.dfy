/** `validateFarcasterSignature`: a guard over the sign-in response the client
    posts to `/auth`, followed by at most one call to the Sign-In-With-Farcaster
    verifier, whose answer (or rejection) is reduced to a boolean. */
module Farcaster {
  import opened Wrappers
  import opened Json

  /** The arguments of `verifySignInMessage`. The request body is cast, not
      checked, so `message`, `signature` and `nonce` are whatever JSON the
      client sent; only `domain` is a string of the server's own making. */
  datatype SignInArgs = SignInArgs(message: Json, signature: Json, domain: string, nonce: Json)

  /** How the verifier's promise settles: resolved with its `success` flag, or rejected. */
  datatype VerifyOutcome = Resolved(success: bool) | Rejected

  /** The auth client's `verifySignInMessage`, left abstract. */
  type SignInVerifier = SignInArgs -> VerifyOutcome

  /** What a validation did: the boolean it resolved to and the verifier calls it made. */
  datatype Run = Run(result: bool, calls: seq<SignInArgs>)

  /** `!body.key` is false: the property is there and truthy. */
  predicate TruthyField(body: Json, key: string): (b: bool)
    ensures b <==> body.Object? && key in body.fields && Truthy(body.fields[key])
  {
    Property(body, key).Value? && Truthy(Property(body, key).value)
  }

  /** The guard: the domain and the body are truthy, and so are the body's
      `message`, `signature` and `nonce`. Only an object can pass it, so the
      property reads never throw. */
  predicate Complete(domain: string, body: Option<Json>): (c: bool)
    ensures c ==> domain != "" && body.Some? && body.value.Object?
    ensures c ==> forall key :: key in ["message", "signature", "nonce"] ==>
                    key in body.value.fields && Truthy(body.value.fields[key])
  {
    domain != "" && body.Some? && Truthy(body.value)
    && TruthyField(body.value, "message") && TruthyField(body.value, "signature")
    && TruthyField(body.value, "nonce")
  }

  /** `result?.success ? true : false`, where a rejected call has left `result` undefined. */
  function Settle(outcome: VerifyOutcome): (b: bool)
    ensures b <==> outcome == Resolved(true)
  {
    match outcome
    case Resolved(success) => success
    case Rejected => false
  }

  /** The arguments forwarded for a body that passed the guard. */
  function Forwarded(domain: string, body: Json): (args: SignInArgs)
    requires body.Object? && "message" in body.fields && "signature" in body.fields && "nonce" in body.fields
    ensures Property(body, "message") == Value(args.message)
    ensures Property(body, "signature") == Value(args.signature)
    ensures Property(body, "nonce") == Value(args.nonce)
    ensures args.domain == domain
  {
    SignInArgs(body.fields["message"], body.fields["signature"], domain, body.fields["nonce"])
  }

  /** `validateFarcasterSignature(client, domain, body)`; `None` is an
      undefined body. */
  function ValidateFarcasterSignature(domain: string, body: Option<Json>, verify: SignInVerifier): (r: Run)
    ensures |r.calls| <= 1
    ensures r.calls == [] <==> !Complete(domain, body)
    ensures r.calls != [] ==> r.calls[0] == Forwarded(domain, body.value)
    ensures r.result <==> |r.calls| == 1 && verify(r.calls[0]) == Resolved(true)
  {
    if domain == "" || body.None? || !Truthy(body.value)
       || !TruthyField(body.value, "message") || !TruthyField(body.value, "signature")
       || !TruthyField(body.value, "nonce")
    then Run(false, [])
    else
      var args := SignInArgs(Property(body.value, "message").value, Property(body.value, "signature").value,
                             domain, Property(body.value, "nonce").value);
      Run(Settle(verify(args)), [args])
  }

  /** An empty domain, a falsy body or a falsy field gives `false`, and the
      verifier is never called. */
  lemma IncompleteNeverVerified(domain: string, body: Option<Json>, verify: SignInVerifier)
    requires !Complete(domain, body)
    ensures ValidateFarcasterSignature(domain, body, verify) == Run(false, [])
  {
  }

  /** Truthy values of any JSON type pass the guard and are forwarded as they
      are: `{"message": 1, "signature": true, "nonce": {}}` reaches the verifier. */
  lemma NonStringFieldsForwarded(domain: string, verify: SignInVerifier)
    requires domain != ""
    ensures var body := Object(map["message" := Number(1.0), "signature" := Bool(true),
                                   "nonce" := Object(map[])]);
            ValidateFarcasterSignature(domain, Some(body), verify).calls
              == [SignInArgs(Number(1.0), Bool(true), domain, Object(map[]))]
  {
  }

  /** A rejected verification gives `false`; the rejection does not escape. */
  lemma RejectionIsFalse(domain: string, body: Json, verify: SignInVerifier)
    requires Complete(domain, Some(body))
    requires verify(Forwarded(domain, body)) == Rejected
    ensures !ValidateFarcasterSignature(domain, Some(body), verify).result
  {
  }

  /** Only the three forwarded fields matter: two bodies that agree on them,
      checked by verifiers that agree on the one call a validation could make,
      give the same run. */
  lemma OnlyForwardedFieldsMatter(domain: string, b1: Json, b2: Json, v1: SignInVerifier, v2: SignInVerifier)
    requires b1.Object? && b2.Object?
    requires forall key :: key in ["message", "signature", "nonce"] ==>
               Property(b1, key) == Property(b2, key)
    requires Complete(domain, Some(b1)) ==> v1(Forwarded(domain, b1)) == v2(Forwarded(domain, b1))
    ensures ValidateFarcasterSignature(domain, Some(b1), v1) == ValidateFarcasterSignature(domain, Some(b2), v2)
  {
    assert Property(b1, "message") == Property(b2, "message");
    assert Property(b1, "signature") == Property(b2, "signature");
    assert Property(b1, "nonce") == Property(b2, "nonce");
  }

  /** The result is `true` exactly when the input passes the guard and the
      verifier resolves with `success` for precisely the forwarded arguments. */
  lemma TrueIff(domain: string, body: Option<Json>, verify: SignInVerifier)
    ensures ValidateFarcasterSignature(domain, body, verify).result <==>
              Complete(domain, body) && verify(Forwarded(domain, body.value)) == Resolved(true)
  {
  }
}
