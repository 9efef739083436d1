/**
 * Bearer-token extraction and the static-token branch of the JWT middleware
 * (internal/middleware/jwt.go). Verifying a signed JWT is not modelled: the
 * middleware's decision names the token it would hand to the JWT library.
 */
module JwtMiddleware {
  import opened Wrappers
  import opened ResponseCode
  import opened GoStrings
  import Constants

  const Bearer: string := "Bearer "

  /**
   * `ParseTokenFromHeader`: splits the Authorization header on "Bearer " and
   * returns the second piece, the text between the first "Bearer " and the
   * next one or the end.
   */
  function ParseTokenFromHeader(header: string): (r: Result<string, Failure>)
    ensures r.Err? <==> !Contains(header, Bearer)
    ensures r.Err? ==> r.error == Failure(Unauthorized, "Invalid Token")
    ensures r.Ok? ==> var start := Index(header, Bearer).value + |Bearer|;
              start + |r.value| <= |header| &&
              header[start..start + |r.value|] == r.value &&
              !Contains(r.value, Bearer) &&
              (start + |r.value| == |header| || OccursAt(header, Bearer, start + |r.value|))
  {
    SplitMany(header, Bearer);
    var parts := Split(header, Bearer);
    if |parts| <= 1 then Err(Failure(Unauthorized, "Invalid Token"))
    else
      SecondPiece(header, Bearer);
      Ok(parts[1])
  }

  /** "Bearer abc" yields "abc". */
  lemma BearerToken(token: string)
    requires !Contains(token, Bearer)
    ensures ParseTokenFromHeader(Bearer + token) == Ok(token)
  {
    var header := Bearer + token;
    assert OccursAt(header, Bearer, 0);
    assert Index(header, Bearer) == Some(0);
    assert header[|Bearer|..] == token;
    SplitAtFirst(header, Bearer, 0);
    SplitFree(token, Bearer);
  }

  /** Whatever precedes the first "Bearer " does not affect the token. */
  lemma PrefixIgnored(header: string)
    requires Contains(header, Bearer)
    ensures var i := Index(header, Bearer).value;
            ParseTokenFromHeader(header) == ParseTokenFromHeader(header[i..])
  {
    var i := Index(header, Bearer).value;
    var tail := header[i..];
    assert tail[0..|Bearer|] == header[i..i + |Bearer|];
    assert OccursAt(tail, Bearer, 0);
    assert Index(tail, Bearer) == Some(0);
    assert tail[|Bearer|..] == header[i + |Bearer|..];
    SplitAtFirst(header, Bearer, i);
    SplitAtFirst(tail, Bearer, 0);
  }

  /** `GetToken`: the same split without the guard, so the header must hold "Bearer ". */
  function GetToken(header: string): (r: string)
    requires Contains(header, Bearer)
    ensures ParseTokenFromHeader(header) == Ok(r)
  {
    SplitMany(header, Bearer);
    Split(header, Bearer)[1]
  }

  /** Claims placed in the request context. */
  datatype TokenClaims = TokenClaims(email: string, userName: string, role: string)

  const AdminClaims: TokenClaims := TokenClaims(Constants.EmailAdmin, "superadmin", Constants.AdminRole)

  /** What the middleware does with a request once the header is read. */
  datatype Decision =
    | StaticAdmin(claims: TokenClaims)   // token equals the configured static token
    | VerifySignedToken(token: string)   // handed to the JWT library

  /**
   * The header-reading part of `JwtMiddleware`: a missing bearer token is
   * rejected; the static token grants the admin claims without any JWT
   * parsing; any other token goes on to signature verification.
   */
  function Authenticate(header: string, staticToken: string): (r: Result<Decision, Failure>)
    ensures r.Err? <==> !Contains(header, Bearer)
    ensures r.Err? ==> r.error == Failure(Unauthorized, "Invalid Token")
    ensures r.Ok? ==> (r.value.StaticAdmin? <==> ParseTokenFromHeader(header) == Ok(staticToken))
    ensures r.Ok? && r.value.StaticAdmin? ==>
              r.value.claims.email == Constants.EmailAdmin && r.value.claims.role == Constants.AdminRole &&
              r.value.claims.userName == "superadmin"
    ensures r.Ok? && r.value.VerifySignedToken? ==> ParseTokenFromHeader(header) == Ok(r.value.token)
  {
    match ParseTokenFromHeader(header)
    case Err(e) => Err(e)
    case Ok(token) => if token == staticToken then Ok(StaticAdmin(AdminClaims)) else Ok(VerifySignedToken(token))
  }

  /** With an unset (empty) static token, the bare header "Bearer " is admitted as admin. */
  lemma EmptyStaticToken()
    ensures Authenticate(Bearer, "") == Ok(StaticAdmin(AdminClaims))
  {
    BearerToken("");
    assert Bearer + "" == Bearer;
  }
}
