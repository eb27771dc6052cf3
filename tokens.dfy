/** What the core sees of a bearer token: the payload `jwt.verify` returns. */
module Tokens {
  import opened Js

  /** A verified token's payload, claim name to value. Numeric claims such
      as `iat` and `exp` are held as text. */
  type Claims = map<string, string>

  /** `jwt.verify(token, secret)`: the payload, or `None` where the library throws. */
  type Verifier = string -> Option<Claims>

  /** `claims[name]`, `undefined` when the claim is absent. */
  function Claim(c: Claims, name: string): Option<string> {
    if name in c then Some(c[name]) else None
  }

  /** The scheme prefix of an `Authorization` header; 7 characters. */
  const BearerPrefix := "Bearer "
}
