/** The `verifyFirebaseToken` middleware: reads the `Authorization` header, extracts the
    bearer token, hands it to the identity provider and, on success, records the caller on
    the request before passing control on. The identity provider is a parameter `verify`
    that either returns the token's claims or throws. */
module Auth {
  import opened Common
  import opened JsString

  const BEARER: string := "Bearer "
  const NO_TOKEN: string := "No token provided"
  const MALFORMED: string := "Token malformed"
  const INVALID_TOKEN: string := "Invalid or expired token"

  /** `req.user` as the middleware fills it in. */
  datatype AuthUser = AuthUser(uid: string, email: Option<string>, displayName: Option<string>)

  /** The claims of a verified token that the middleware reads. */
  datatype DecodedToken = DecodedToken(uid: string, email: Option<string>, name: Option<string>)

  /** What `verifyIdToken` does with a token: returns its claims, or throws. */
  datatype Verification = Verified(claims: DecodedToken) | Threw

  /** `header.split('Bearer ')[1]`: the text after the leading prefix, up to the next
      occurrence of the prefix or the end of the header. */
  function ExtractToken(header: string): (token: string)
    requires StartsWith(header, BEARER)
    ensures |BEARER| + |token| <= |header|
    ensures token == header[|BEARER|..|BEARER| + |token|]
    ensures |BEARER| + |token| == |header| || OccursAt(header, BEARER, |BEARER| + |token|)
    ensures forall j: nat :: |BEARER| <= j < |BEARER| + |token| ==> !OccursAt(header, BEARER, j)
  {
    var rest := header[|BEARER|..];
    SplitLeadingSeparator(header, BEARER);
    var token := Split(header, BEARER)[1];
    assert token == Split(rest, BEARER)[0];
    TokenIsFirstPiece(header, rest, token);
    token
  }

  lemma TokenIsFirstPiece(header: string, rest: string, token: string)
    requires StartsWith(header, BEARER) && rest == header[|BEARER|..]
    requires token == Split(rest, BEARER)[0]
    ensures |BEARER| + |token| <= |header|
    ensures token == header[|BEARER|..|BEARER| + |token|]
    ensures |BEARER| + |token| == |header| || OccursAt(header, BEARER, |BEARER| + |token|)
    ensures forall j: nat :: |BEARER| <= j < |BEARER| + |token| ==> !OccursAt(header, BEARER, j)
  {
    var n := |BEARER|;
    match IndexOf(rest, BEARER)
    case None =>
      assert token == rest;
      forall j: nat | n <= j ensures !OccursAt(header, BEARER, j) {
        OccursInSuffix(header, BEARER, n, j - n);
        assert !OccursAt(rest, BEARER, j - n);
      }
    case Some(i) =>
      assert token == rest[..i];
      OccursInSuffix(header, BEARER, n, i);
      forall j: nat | n <= j < n + i ensures !OccursAt(header, BEARER, j) {
        OccursInSuffix(header, BEARER, n, j - n);
      }
  }

  /** `req.user?.uid` when it is truthy: a caller without a user or with an empty uid is
      unauthenticated for the controllers. */
  function CallerUid(user: Option<AuthUser>): (uid: Option<string>)
    ensures uid.Some? <==> user.Some? && user.value.uid != ""
    ensures uid.Some? ==> uid.value == user.value.uid && uid.value != ""
  {
    if user.Some? && user.value.uid != "" then Some(user.value.uid) else None
  }

  /** The middleware's verdict: pass on with this caller, or answer 401 with this error. */
  datatype Decision = Admit(user: AuthUser) | Deny(error: string)

  /** The verdict the middleware reaches for a header, given the identity provider. */
  function Authenticate(header: Option<string>, verify: string -> Verification): (d: Decision)
    ensures header.None? || !StartsWith(header.value, BEARER) ==> d == Deny(NO_TOKEN)
    ensures d == Deny(MALFORMED) <==>
      header.Some? && StartsWith(header.value, BEARER) && ExtractToken(header.value) == ""
    ensures d.Admit? <==>
      && header.Some? && StartsWith(header.value, BEARER) && ExtractToken(header.value) != ""
      && verify(ExtractToken(header.value)).Verified?
    ensures
      && header.Some? && StartsWith(header.value, BEARER) && ExtractToken(header.value) != ""
      && verify(ExtractToken(header.value)).Threw?
      ==> d == Deny(INVALID_TOKEN)
    ensures d.Admit? ==>
      var claims := verify(ExtractToken(header.value)).claims;
      d.user == AuthUser(claims.uid, claims.email, claims.name)
  {
    if header.None? || !StartsWith(header.value, BEARER) then Deny(NO_TOKEN)
    else
      var token := ExtractToken(header.value);
      if token == "" then Deny(MALFORMED)
      else match verify(token)
        case Threw => Deny(INVALID_TOKEN)
        case Verified(c) => Admit(AuthUser(c.uid, c.email, c.name))
  }

  /** For `"Bearer " + t`, where `t` holds no further `"Bearer "`, the token is `t`. */
  lemma BearerRoundTrip(t: string)
    requires !Contains(t, BEARER)
    ensures StartsWith(BEARER + t, BEARER) && ExtractToken(BEARER + t) == t
  {
    var h := BEARER + t;
    assert h[..|BEARER|] == BEARER;
    assert h[|BEARER|..] == t;
    var token := ExtractToken(h);
    if |token| < |t| {
      OccursInSuffix(h, BEARER, |BEARER|, |token|);
      assert false;
    }
    assert h[|BEARER|..|BEARER| + |token|] == t;
  }

  /** The verifier is asked about exactly the text after the prefix. */
  lemma VerifierSeesToken(t: string, verify: string -> Verification)
    requires t != "" && !Contains(t, BEARER)
    ensures Authenticate(Some(BEARER + t), verify) ==
      match verify(t)
      case Threw => Deny(INVALID_TOKEN)
      case Verified(c) => Admit(AuthUser(c.uid, c.email, c.name))
  {
    BearerRoundTrip(t);
  }

  /** A header that is only the prefix carries an empty token. */
  lemma PrefixAloneIsMalformed(verify: string -> Verification)
    ensures Authenticate(Some(BEARER), verify) == Deny(MALFORMED)
  {
    assert !Contains("", BEARER);
    BearerRoundTrip("");
    assert BEARER + "" == BEARER;
  }

  /** A doubled prefix also leaves an empty token: `split` cuts at the second one. */
  lemma DoubledPrefixIsMalformed(t: string, verify: string -> Verification)
    ensures Authenticate(Some(BEARER + BEARER + t), verify) == Deny(MALFORMED)
  {
    var h := BEARER + BEARER + t;
    assert h[..|BEARER|] == BEARER;
    assert h[|BEARER|..|BEARER| + |BEARER|] == BEARER;
    assert OccursAt(h, BEARER, |BEARER|);
    var token := ExtractToken(h);
    if token != "" {
      assert false;
    }
  }

  /** The prefix check is case-sensitive. */
  lemma LowerCasePrefixIsRejected(t: string, verify: string -> Verification)
    ensures Authenticate(Some("bearer " + t), verify) == Deny(NO_TOKEN)
  {
    assert ("bearer " + t)[0] == 'b';
  }

  /** The request/response pair as the middleware sees it: the header it reads, the
      `req.user` slot it may fill, how often it called `next`, and what it answered. */
  class Exchange {
    const authorization: Option<string>
    var user: Option<AuthUser>
    var nextCalls: nat
    var response: Option<(int, string)>

    constructor (authorization: Option<string>)
      ensures this.authorization == authorization
      ensures user == None && nextCalls == 0 && response == None
    {
      this.authorization := authorization;
      user, nextCalls, response := None, 0, None;
    }
  }

  /** `verifyFirebaseToken(req, res, next)`: on success sets `req.user` and calls `next`
      once; otherwise answers 401 and leaves `req.user` alone. */
  method VerifyFirebaseToken(ex: Exchange, verify: string -> Verification)
    modifies ex
    ensures match Authenticate(ex.authorization, verify)
      case Admit(u) =>
        ex.user == Some(u) && ex.nextCalls == old(ex.nextCalls) + 1 && ex.response == old(ex.response)
      case Deny(e) =>
        ex.user == old(ex.user) && ex.nextCalls == old(ex.nextCalls) && ex.response == Some((UNAUTHORIZED, e))
  {
    var header := ex.authorization;
    if header.None? || !StartsWith(header.value, BEARER) {
      ex.response := Some((UNAUTHORIZED, NO_TOKEN));
      return;
    }
    var token := ExtractToken(header.value);
    if token == "" {
      ex.response := Some((UNAUTHORIZED, MALFORMED));
      return;
    }
    var verdict := verify(token);
    if verdict.Threw? {
      ex.response := Some((UNAUTHORIZED, INVALID_TOKEN));
      return;
    }
    var claims := verdict.claims;
    ex.user := Some(AuthUser(claims.uid, claims.email, claims.name));
    ex.nextCalls := ex.nextCalls + 1;
  }
}
