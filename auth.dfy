/** `middleware/auth.js`: the `auth` middleware as a classifier from the
    `Authorization` header and the outcome of token verification to either "call
    `next` with this user id" or "respond with this status and body". */
module AuthMiddleware {
  datatype Option<T> = None | Some(value: T)

  /** What `jwt.verify(token, secret)` does with a token: return a payload (whose
      `userId` may be absent) or throw an error with a `name` and a `message`. The
      secret is part of the verifier. */
  datatype VerifyOutcome = Decoded(userId: Option<string>) | Failed(name: string, message: string)

  /** `next()` with `req.user = { id: userId }`, or `res.status(status).json(...)`;
      an `error` of `None` is the `undefined` field that JSON leaves out. */
  datatype AuthResult =
    | Next(userId: Option<string>)
    | Respond(status: nat, message: string, error: Option<string>)

  const Unauthorized: nat := 401
  const NoTokenMessage: string := "No authentication token, access denied"
  const InvalidFormatMessage: string := "Invalid token format"
  const ExpiredMessage: string := "Token has expired, please log in again"
  const VerifyFailedMessage: string := "Token verification failed, authorization denied"
  const ExpiredErrorName: string := "TokenExpiredError"
  const Scheme: string := "Bearer "

  // ---------------------------------------------------------------------------
  // The string operations the middleware uses

  /** `pat` occurs in `s` at position `j`. */
  predicate OccursAt(s: string, pat: string, j: nat) {
    j + |pat| <= |s| && s[j..j + |pat|] == pat
  }

  /** `s.startsWith(prefix)`: the first `|prefix|` characters of `s` are `prefix`. */
  predicate StartsWith(s: string, prefix: string)
    ensures StartsWith(s, prefix) <==> |prefix| <= |s| && s[..|prefix|] == prefix
  {
    OccursAt(s, prefix, 0)
  }

  /** `s.indexOf(pat, i)`: the first occurrence at or after `i`. */
  function IndexOfFrom(s: string, pat: string, i: nat): (r: Option<nat>)
    requires i <= |s|
    ensures r.Some? ==> i <= r.value && OccursAt(s, pat, r.value)
    ensures r.Some? ==> forall j :: i <= j < r.value ==> !OccursAt(s, pat, j)
    ensures r.None? ==> forall j :: i <= j <= |s| ==> !OccursAt(s, pat, j)
    decreases |s| - i
  {
    if i + |pat| > |s| then None
    else if s[i..i + |pat|] == pat then Some(i)
    else IndexOfFrom(s, pat, i + 1)
  }

  /** `s.replace(pat, rep)` with a string pattern: only the first occurrence is
      replaced, and a string without one is returned as it is. The replacement is
      inserted literally; JavaScript would expand `$&`, `$$`, `` $` `` and `$'` in
      `rep`, which does not matter for the empty replacement `auth` uses. */
  function ReplaceFirst(s: string, pat: string, rep: string): (r: string)
    ensures forall i: nat :: OccursAt(s, pat, i) && (forall j: nat :: j < i ==> !OccursAt(s, pat, j)) ==>
      r == s[..i] + rep + s[i + |pat|..]
    ensures (forall j :: 0 <= j <= |s| ==> !OccursAt(s, pat, j)) ==> r == s
  {
    match IndexOfFrom(s, pat, 0)
    case None => s
    case Some(i) => s[..i] + rep + s[i + |pat|..]
  }

  // ---------------------------------------------------------------------------
  // The middleware

  /** `auth(req, res, next)` for a header (`None` when there is none), a verifier
      and whether `NODE_ENV` is `'development'`. Every response is a 401. */
  function Auth(header: Option<string>, verify: string -> VerifyOutcome, development: bool): (r: AuthResult)
    ensures r.Respond? ==> r.status == Unauthorized
  {
    if header.None? || header.value == "" then
      Respond(Unauthorized, NoTokenMessage, None)
    else if !StartsWith(header.value, Scheme) then
      Respond(Unauthorized, InvalidFormatMessage, None)
    else
      var token := ReplaceFirst(header.value, Scheme, "");
      if token == "" then
        Respond(Unauthorized, NoTokenMessage, None)
      else
        match verify(token)
        case Decoded(userId) => Next(userId)
        case Failed(name, message) =>
          if name == ExpiredErrorName then
            Respond(Unauthorized, ExpiredMessage, Some(ExpiredErrorName))
          else
            Respond(Unauthorized, VerifyFailedMessage, if development then Some(message) else None)
  }

  /** The token handed to the verifier is the header after "Bearer ". */
  lemma TokenIsRest(h: string)
    requires StartsWith(h, Scheme)
    ensures ReplaceFirst(h, Scheme, "") == h[|Scheme|..]
    ensures ReplaceFirst(h, Scheme, "") == "" <==> h == Scheme
  {
    assert OccursAt(h, Scheme, 0);
    if h[|Scheme|..] == "" {
      assert h == h[..|Scheme|] + h[|Scheme|..];
    }
  }

  /** `next` is called exactly when the header is "Bearer " followed by a non-empty
      token that the verifier accepts, and then with the payload's user id. */
  lemma AuthNextIff(header: Option<string>, verify: string -> VerifyOutcome, development: bool)
    ensures Auth(header, verify, development).Next? <==>
      header.Some? && StartsWith(header.value, Scheme) && |header.value| > |Scheme|
      && verify(header.value[|Scheme|..]).Decoded?
    ensures Auth(header, verify, development).Next? ==>
      Auth(header, verify, development).userId == verify(header.value[|Scheme|..]).userId
  {
    if header.Some? && StartsWith(header.value, Scheme) {
      TokenIsRest(header.value);
    }
  }

  /** A missing or empty header, and the header "Bearer " with nothing after it,
      are answered with the no-token message. */
  lemma AuthNoToken(header: Option<string>, verify: string -> VerifyOutcome, development: bool)
    requires header.None? || header.value == "" || header.value == Scheme
    ensures Auth(header, verify, development) == Respond(Unauthorized, NoTokenMessage, None)
  {
    if header.Some? && header.value == Scheme {
      TokenIsRest(header.value);
    }
  }

  /** A non-empty header that does not begin with "Bearer " has the wrong format. */
  lemma AuthInvalidFormat(header: string, verify: string -> VerifyOutcome, development: bool)
    requires header != "" && !StartsWith(header, Scheme)
    ensures Auth(Some(header), verify, development) == Respond(Unauthorized, InvalidFormatMessage, None)
  {
  }

  /** The scheme is matched case-sensitively: "bearer x" has the wrong format. */
  lemma AuthSchemeIsCaseSensitive(verify: string -> VerifyOutcome, development: bool)
    ensures Auth(Some("bearer x"), verify, development) == Respond(Unauthorized, InvalidFormatMessage, None)
  {
    assert "bearer x"[..|Scheme|][0] == 'b';
  }

  /** A rejected token: an expired one gets its own message and error name in every
      environment; any other failure reports its message only in development. */
  lemma AuthVerifyFailure(token: string, verify: string -> VerifyOutcome, development: bool)
    requires token != "" && verify(token).Failed?
    ensures Auth(Some(Scheme + token), verify, development) ==
      if verify(token).name == ExpiredErrorName then
        Respond(Unauthorized, ExpiredMessage, Some(ExpiredErrorName))
      else
        Respond(Unauthorized, VerifyFailedMessage, if development then Some(verify(token).message) else None)
  {
    var h := Scheme + token;
    assert h[..|Scheme|] == Scheme && h[|Scheme|..] == token;
    TokenIsRest(h);
  }

  /** The verifier is consulted only for a header of the form "Bearer " + token:
      for any other header two verifiers give the same answer. */
  lemma AuthIgnoresVerifierOtherwise(header: Option<string>, v1: string -> VerifyOutcome,
                                     v2: string -> VerifyOutcome, development: bool)
    requires header.None? || !StartsWith(header.value, Scheme) || header.value == Scheme
    ensures Auth(header, v1, development) == Auth(header, v2, development)
  {
    if header.Some? && StartsWith(header.value, Scheme) {
      TokenIsRest(header.value);
    }
  }

  /** The environment changes only the body of a non-expiry verification failure. */
  lemma AuthDevelopmentOnlyAddsDetail(header: Option<string>, verify: string -> VerifyOutcome)
    ensures Auth(header, verify, true) != Auth(header, verify, false) ==>
      Auth(header, verify, false).Respond? && Auth(header, verify, false).message == VerifyFailedMessage
      && Auth(header, verify, false).error == None && Auth(header, verify, true).error.Some?
  {
  }
}
