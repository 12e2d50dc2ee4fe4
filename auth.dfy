/** The authentication and authorisation middleware of middleware/userAuth.js. JWT signing
    and verification are a parameter: `verify(token, secret)` is what `jwt.verify` yields. */
module Auth {
  import opened Seqs
  import opened Models
  import opened Store

  /** `s` up to its first space (all of `s` when it has none). */
  function BeforeSpace(s: string): (r: string)
    ensures ' ' !in r
    ensures StartsWith(s, r)
    ensures |r| == |s| || s[|r|] == ' '
  {
    if s == [] || s[0] == ' ' then [] else [s[0]] + BeforeSpace(s[1..])
  }

  /** `s.split(' ')[1]`: the text between the first space and the next one (or the end);
      None (undefined) when `s` has no space. */
  function SecondField(s: string): (r: Option<string>)
    ensures r.None? <==> ' ' !in s
    ensures r.Some? ==>
      var i := |BeforeSpace(s)|;
      && i < |s| && s[i] == ' ' && ' ' !in r.value
      && StartsWith(s[i + 1..], r.value)
      && (i + 1 + |r.value| == |s| || s[i + 1 + |r.value|] == ' ')
  {
    var first := BeforeSpace(s);
    if |first| == |s| then
      assert s == first;
      None
    else
      Some(BeforeSpace(s[|first| + 1..]))
  }

  lemma {:induction false} BeforeSpaceOfWord(a: string, rest: string)
    requires ' ' !in a
    requires rest == [] || rest[0] == ' '
    ensures BeforeSpace(a + rest) == a
  {
    if a != [] {
      assert (a + rest)[1..] == a[1..] + rest;
      BeforeSpaceOfWord(a[1..], rest);
    } else {
      assert a + rest == rest;
    }
  }

  const Bearer: string := "Bearer"

  /** The token verifyUserAuth settles on: a non-empty cookie token first; otherwise the second
      field of an Authorization header that starts with "Bearer". None is a token that is
      absent or empty (falsy). */
  function SelectToken(cookie: Option<string>, header: Option<string>): (r: Option<string>)
    ensures r.Some? ==> r.value != ""
    ensures cookie.Some? && cookie.value != "" ==> r == cookie
    ensures !(cookie.Some? && cookie.value != "") ==>
      (r.Some? <==> header.Some? && StartsWith(header.value, Bearer) &&
                    SecondField(header.value).Some? && SecondField(header.value).value != "") &&
      (r.Some? ==> r == SecondField(header.value))
  {
    if cookie.Some? && cookie.value != "" then cookie
    else if header.Some? && header.value != "" && StartsWith(header.value, Bearer) then
      var t := SecondField(header.value);
      if t.Some? && t.value != "" then t else None
    else None
  }

  /** A header "Bearer <token>" yields the token, when there is no cookie token. */
  lemma BearerHeaderRoundTrip(token: string)
    requires token != "" && ' ' !in token
    ensures SelectToken(None, Some(Bearer + " " + token)) == Some(token)
    ensures SelectToken(Some(""), Some(Bearer + " " + token)) == Some(token)
  {
    var header := Bearer + " " + token;
    assert header == Bearer + ([' '] + token);
    BeforeSpaceOfWord(Bearer, [' '] + token);
    assert header[|Bearer| + 1..] == token;
    BeforeSpaceOfWord(token, []);
    assert token + [] == token;
    assert StartsWith(header, Bearer);
  }

  /** What `jwt.verify` does with a token: decode the user id, or throw one of its errors. */
  datatype JwtOutcome = Decoded(id: Id) | TokenExpiredError | JsonWebTokenError | OtherError

  /** verifyUserAuth, yielding the id of the user it loads into `req.user`. The result of
      `jwt.verify` for the selected token and the configured secret is `verify(token, secret)`. */
  method VerifyUserAuth(
    db: Db, cookie: Option<string>, header: Option<string>, secret: Option<string>,
    verify: (string, string) -> JwtOutcome)
    returns (r: Result<Id>)
    ensures SelectToken(cookie, header).None? ==> r == Fail(HttpError(401, AuthenticationMissing))
    ensures SelectToken(cookie, header).Some? && (secret.None? || secret.value == "") ==>
      r == Fail(HttpError(500, SecretNotSet))
    ensures SelectToken(cookie, header).Some? && secret.Some? && secret.value != "" ==>
      match verify(SelectToken(cookie, header).value, secret.value)
      case Decoded(id) =>
        if id in db.users then r == Ok(id) else r == Fail(HttpError(401, UserNotFound))
      case TokenExpiredError => r == Fail(HttpError(401, TokenExpired))
      case JsonWebTokenError => r == Fail(HttpError(401, InvalidToken))
      case OtherError => r == Fail(HttpError(401, AuthenticationFailed))
    ensures r.Fail? && r.failure != HttpError(500, SecretNotSet) ==> r.failure.code == 401
    ensures r.Ok? ==> r.value in db.users
  {
    var token: Option<string> := None;
    if cookie.Some? && cookie.value != "" {
      token := cookie;
    }
    if token.None? && header.Some? && header.value != "" && StartsWith(header.value, Bearer) {
      token := SecondField(header.value);
    }
    if token.None? || token.value == "" {
      return Fail(HttpError(401, AuthenticationMissing));
    }
    if secret.None? || secret.value == "" {
      return Fail(HttpError(500, SecretNotSet));
    }
    match verify(token.value, secret.value) {
      case Decoded(id) =>
        if id !in db.users {
          return Fail(HttpError(401, UserNotFound));
        }
        r := Ok(id);
      case TokenExpiredError =>
        r := Fail(HttpError(401, TokenExpired));
      case JsonWebTokenError =>
        r := Fail(HttpError(401, InvalidToken));
      case OtherError =>
        r := Fail(HttpError(401, AuthenticationFailed));
    }
  }

  /** roleBasedAccess(...roles): the request passes exactly when the user's role is listed. */
  function RoleBasedAccess(roles: seq<string>, role: string): (r: Result<()>)
    ensures r.Ok? <==> role in roles
    ensures r.Fail? ==> r.failure == HttpError(403, RoleNotAllowed(role))
  {
    if role in roles then Ok(()) else Fail(HttpError(403, RoleNotAllowed(role)))
  }

  /** Listing more roles never locks a role out, and a role is allowed by a list exactly when
      it is allowed by some single-role list drawn from it. */
  lemma RoleAccessMonotone(roles: seq<string>, more: seq<string>, role: string)
    ensures RoleBasedAccess(roles, role).Ok? ==> RoleBasedAccess(roles + more, role).Ok?
    ensures RoleBasedAccess(roles + more, role).Ok? <==>
      RoleBasedAccess(roles, role).Ok? || RoleBasedAccess(more, role).Ok?
  {
  }
}
