/** `getUser` of `src/middleware/auth.js`: the verified payload of a token, or null. */
module AuthMiddleware {
  import opened Js
  import opened Strings
  import opened Tokens
  import Jwt

  /** `getUser(token)`: strips the first `Bearer ` and returns the verified
      payload verbatim, null when the token is falsy or does not verify. */
  function GetUser(token: Option<string>, verify: Verifier): (user: Option<Claims>)
    ensures !TruthyText(token) ==> user == None
    ensures TruthyText(token) ==> user == verify(ReplaceFirst(token.value, BearerPrefix, ""))
  {
    if token.Some? && token.value != "" then verify(ReplaceFirst(token.value, BearerPrefix, ""))
    else None
  }

  /** A falsy token never reaches verification. */
  lemma FalsyTokenSkipsVerify(token: Option<string>, verify: Verifier, other: Verifier)
    requires !TruthyText(token)
    ensures GetUser(token, verify) == None == GetUser(token, other)
  {
  }

  /** The first `Bearer ` is removed wherever it stands, and only that one. */
  lemma StripsFirstBearerAnywhere(pre: string, post: string, verify: Verifier)
    requires forall j :: 0 <= j < |pre| ==> !OccursAt(pre + BearerPrefix + post, BearerPrefix, j)
    ensures GetUser(Some(pre + BearerPrefix + post), verify) == verify(pre + post)
  {
    ReplaceFirstKeepsLater(pre, BearerPrefix, post);
  }

  /** On a well-formed `Bearer <token>` header both context builders verify the
      same token; `getUser` keeps the whole payload, `authContext` its projection. */
  lemma AgreesWithAuthContext(header: string, verify: Verifier)
    requires BearerPrefix <= header && |header| > |BearerPrefix|
    ensures GetUser(Some(header), verify) == verify(header[|BearerPrefix|..])
    ensures Jwt.AuthContextOf(Some(header), verify).user ==
      (if GetUser(Some(header), verify).Some? then Some(Jwt.Project(GetUser(Some(header), verify).value)) else None)
  {
    ReplaceFirstAtStart(header, BearerPrefix);
  }
}
