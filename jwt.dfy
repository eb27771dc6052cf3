/** `authContext` of `src/auth/jwt.js`: from the `Authorization` header to
    the `{ user }` context, with token verification abstracted as a parameter. */
module Jwt {
  import opened Js
  import opened Tokens

  /** `{ id, role, name }` copied from the decoded claims; each may be undefined. */
  datatype Principal = Principal(id: Option<string>, role: Option<string>, name: Option<string>)

  /** `{ user }`, with `user: null` for an anonymous caller. */
  datatype AuthContext = AuthContext(user: Option<Principal>)

  /** The claim projection: `{ id: decoded.id, role: decoded.role, name: decoded.name }`. */
  function Project(c: Claims): Principal {
    Principal(Claim(c, "id"), Claim(c, "role"), Claim(c, "name"))
  }

  /** `authContext(req)`, `authorization` being `req.headers.authorization`. */
  function AuthContextOf(authorization: Option<string>, verify: Verifier): (ctx: AuthContext)
    ensures ctx.user.Some? <==>
      authorization.Some? && BearerPrefix <= authorization.value && |authorization.value| > |BearerPrefix|
      && verify(authorization.value[|BearerPrefix|..]).Some?
    ensures ctx.user.Some? ==> ctx.user.value == Project(verify(authorization.value[|BearerPrefix|..]).value)
  {
    var header := authorization.GetOr("");
    var token: Option<string> := if BearerPrefix <= header then Some(header[|BearerPrefix|..]) else None;
    if token.None? || token.value == "" then AuthContext(None)
    else
      match verify(token.value)
      case None => AuthContext(None)
      case Some(decoded) => AuthContext(Some(Project(decoded)))
  }

  /** A missing header is read as "" and yields an anonymous context. */
  lemma MissingHeaderIsAnonymous(verify: Verifier)
    ensures AuthContextOf(None, verify) == AuthContext(None)
  {
  }

  /** A header without the `Bearer ` prefix yields an anonymous context, and
      verification is never consulted: any two verifiers give the same result. */
  lemma NonBearerSkipsVerify(header: string, verify: Verifier, other: Verifier)
    requires !(BearerPrefix <= header)
    ensures AuthContextOf(Some(header), verify) == AuthContext(None)
    ensures AuthContextOf(Some(header), verify) == AuthContextOf(Some(header), other)
  {
  }

  /** The only token ever verified is the header without its first 7 characters:
      verifiers that agree on that token give the same context. */
  lemma OnlySlicedTokenVerified(header: string, verify: Verifier, other: Verifier)
    requires |header| >= |BearerPrefix|
    requires verify(header[|BearerPrefix|..]) == other(header[|BearerPrefix|..])
    ensures AuthContextOf(Some(header), verify) == AuthContextOf(Some(header), other)
  {
  }

  /** Claims other than `id`, `role` and `name` are dropped: payloads that agree
      on those three give the same principal. */
  lemma ProjectionDropsOtherClaims(c: Claims, d: Claims)
    requires Claim(c, "id") == Claim(d, "id") && Claim(c, "role") == Claim(d, "role")
    requires Claim(c, "name") == Claim(d, "name")
    ensures Project(c) == Project(d)
  {
  }
}
