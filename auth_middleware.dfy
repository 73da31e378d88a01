/**
 * The request authentication middleware: where the token is taken from, and
 * how the verification outcome becomes either a 401 answer or the
 * authenticated user id. Token verification itself is a parameter.
 */
module AuthMiddleware {
  import opened Common

  /** The characters before the first space (all of s when it has none). */
  function BeforeSpace(s: string): (r: string)
    ensures |r| <= |s| && r == s[..|r|]
    ensures forall i :: 0 <= i < |r| ==> r[i] != ' '
    ensures |r| < |s| ==> s[|r|] == ' '
  {
    if s == [] || s[0] == ' ' then []
    else
      var rest := BeforeSpace(s[1..]);
      assert s[..1 + |rest|] == [s[0]] + s[1..][..|rest|];
      [s[0]] + rest
  }

  const BearerPrefix := "Bearer "

  /** `header.split(' ')[1]` for a truthy header that starts with "Bearer ", and nothing otherwise. */
  function BearerToken(header: Option<string>): (r: Option<string>)
    ensures r.Some? <==> Truthy(header) && StartsWith(header.value, BearerPrefix)
  {
    if Truthy(header) && StartsWith(header.value, BearerPrefix) then Some(BeforeSpace(header.value[|BearerPrefix|..]))
    else None
  }

  /** A token without spaces sent as "Bearer <token>", with or without more fields after it, is read back exactly. */
  lemma BearerReadsToken(t: string, rest: string)
    requires forall i :: 0 <= i < |t| ==> t[i] != ' '
    ensures BearerToken(Some(BearerPrefix + t)) == Some(t)
    ensures BearerToken(Some(BearerPrefix + t + " " + rest)) == Some(t)
  {
    var h1 := BearerPrefix + t;
    assert h1[..|BearerPrefix|] == BearerPrefix && h1[|BearerPrefix|..] == t + [];
    BeforeSpaceOfField(t, []);
    assert BearerToken(Some(h1)) == Some(t);
    var h2 := BearerPrefix + t + " " + rest;
    assert h2 == BearerPrefix + (t + (" " + rest));
    assert h2[..|BearerPrefix|] == BearerPrefix && h2[|BearerPrefix|..] == t + (" " + rest);
    BeforeSpaceOfField(t, " " + rest);
    assert BearerToken(Some(h2)) == Some(t);
  }

  lemma BeforeSpaceOfField(t: string, tail: string)
    requires forall i :: 0 <= i < |t| ==> t[i] != ' '
    requires tail == [] || tail[0] == ' '
    ensures BeforeSpace(t + tail) == t
  {
    assert (t + tail)[..|t|] == t;
  }

  /** The first truthy candidate, in order. */
  function FirstTruthy(candidates: seq<Option<string>>): (r: Option<string>)
    ensures r.Some? ==> Truthy(r) && r in candidates
    ensures r.None? <==> forall i :: 0 <= i < |candidates| ==> !Truthy(candidates[i])
    ensures forall i :: 0 <= i < |candidates| && Truthy(candidates[i]) && (forall j :: 0 <= j < i ==> !Truthy(candidates[j])) ==>
              r == candidates[i]
  {
    if candidates == [] then None
    else if Truthy(candidates[0]) then candidates[0]
    else
      var r := FirstTruthy(candidates[1..]);
      assert forall i :: 1 <= i < |candidates| ==> candidates[i] == candidates[1..][i - 1];
      r
  }

  lemma FirstTruthyOfThree(a: Option<string>, b: Option<string>, c: Option<string>)
    ensures FirstTruthy([a, b, c]) == if Truthy(a) then a else if Truthy(b) then b else if Truthy(c) then c else None
  {
    assert [c][1..] == [];
    assert FirstTruthy([c]) == if Truthy(c) then c else None;
    assert [b, c][1..] == [c];
    assert FirstTruthy([b, c]) == if Truthy(b) then b else FirstTruthy([c]);
    assert [a, b, c][1..] == [b, c];
  }

  /**
   * The token the middleware settles on: the cookie; if that is falsy, the
   * bearer header field; if still falsy, the query parameter. Each later
   * source overwrites a falsy earlier value, so the result may itself be
   * falsy.
   */
  function SelectToken(cookie: Option<string>, header: Option<string>, query: Option<string>): (token: Option<string>)
    ensures Truthy(token) <==> Truthy(FirstTruthy([cookie, BearerToken(header), query]))
    ensures Truthy(token) ==> token == FirstTruthy([cookie, BearerToken(header), query])
    ensures Truthy(cookie) ==> token == cookie
  {
    FirstTruthyOfThree(cookie, BearerToken(header), query);
    var afterCookie := cookie;
    var afterHeader := if !Truthy(afterCookie) && BearerToken(header).Some? then BearerToken(header) else afterCookie;
    var afterQuery := if !Truthy(afterHeader) && Truthy(query) then query else afterHeader;
    afterQuery
  }

  /** The answer of the middleware: a 401 with a message and code, or the request goes on as `user`. */
  datatype AuthOutcome =
    | Reject(status: int, message: string, code: string)
    | Proceed(user: UserId)

  /** The message for a verification error, by the error's name. */
  function VerificationMessage(name: string): (m: string)
    ensures m == "Token has expired" <==> name == "TokenExpiredError"
    ensures m == "Invalid token format" <==> name == "JsonWebTokenError"
    ensures m == "Token is not valid" <==> name != "TokenExpiredError" && name != "JsonWebTokenError"
  {
    if name == "TokenExpiredError" then "Token has expired"
    else if name == "JsonWebTokenError" then "Invalid token format"
    else "Token is not valid"
  }

  /**
   * The middleware: no truthy token is AUTH_TOKEN_REQUIRED; a failed
   * verification is INVALID_TOKEN with the message for its name; a payload
   * without a valid userId is INVALID_TOKEN_FORMAT; otherwise the request
   * goes on (next is called once) with the userId cast to an ObjectId.
   */
  function Authenticate(cookie: Option<string>, header: Option<string>, query: Option<string>, verify: string -> JwtOutcome)
    : (r: AuthOutcome)
    ensures r.Reject? ==> r.status == 401
    ensures var token := SelectToken(cookie, header, query);
            && (r == Reject(401, "Authorization token required", "AUTH_TOKEN_REQUIRED") <==> !Truthy(token))
            && (r.Reject? && r.code == "INVALID_TOKEN" <==> Truthy(token) && verify(token.value).JwtFailure?)
            && (r.Reject? && r.code == "INVALID_TOKEN_FORMAT" <==>
                  Truthy(token) && verify(token.value).Decoded?
                  && !(Truthy(verify(token.value).userId) && IsObjectId(verify(token.value).userId.value)))
            && (r.Proceed? <==>
                  Truthy(token) && verify(token.value).Decoded?
                  && Truthy(verify(token.value).userId) && IsObjectId(verify(token.value).userId.value))
            && (r.Proceed? ==> r.user == Canonical(verify(token.value).userId.value) && IsObjectId(r.user))
            && (r.Reject? && r.code == "INVALID_TOKEN" ==> r.message == VerificationMessage(verify(token.value).name))
  {
    var token := SelectToken(cookie, header, query);
    if !Truthy(token) then Reject(401, "Authorization token required", "AUTH_TOKEN_REQUIRED")
    else match verify(token.value)
      case JwtFailure(name) => Reject(401, VerificationMessage(name), "INVALID_TOKEN")
      case Decoded(userId) =>
        if !Truthy(userId) || !IsObjectId(userId.value) then Reject(401, "Invalid token format", "INVALID_TOKEN_FORMAT")
        else Proceed(Canonical(userId.value))
  }

  /** A valid cookie token decides the outcome whatever the header and the query carry. */
  lemma CookieTakesPrecedence(cookie: Option<string>, h1: Option<string>, q1: Option<string>, h2: Option<string>, q2: Option<string>,
                              verify: string -> JwtOutcome)
    requires Truthy(cookie)
    ensures Authenticate(cookie, h1, q1, verify) == Authenticate(cookie, h2, q2, verify)
  {
  }
}
