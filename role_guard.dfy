/** `requireAdmin` and `requireAuth` of `src/auth/roleGuard.js`. */
module RoleGuard {
  import opened Js
  import opened Jwt

  /** A resolver context: `auth` as `authContext` builds it; either may be missing. */
  datatype Ctx = Ctx(auth: Option<AuthContext>)

  /** Returning normally, or throwing an `Error` with a message. */
  datatype Outcome = Pass | Fail(message: string)

  const AdminRequired := "Admin privileges required"
  const AuthRequired := "Authentication required"

  /** `ctx?.auth?.user`: undefined as soon as a link of the chain is missing. */
  function UserOf(ctx: Option<Ctx>): Option<Principal> {
    if ctx.Some? && ctx.value.auth.Some? then ctx.value.auth.value.user else None
  }

  /** `requireAdmin(ctx)` */
  function RequireAdmin(ctx: Option<Ctx>): (o: Outcome)
    ensures o.Pass? <==> UserOf(ctx).Some? && UserOf(ctx).value.role == Some("admin")
    ensures o.Fail? ==> o.message == AdminRequired
  {
    match ctx
    case None => Fail(AdminRequired)
    case Some(c) =>
      match c.auth
      case None => Fail(AdminRequired)
      case Some(a) =>
        if a.user.None? || a.user.value.role != Some("admin") then Fail(AdminRequired) else Pass
  }

  /** `requireAuth(ctx)` */
  function RequireAuth(ctx: Option<Ctx>): (o: Outcome)
    ensures o.Pass? <==> UserOf(ctx).Some?
    ensures o.Fail? ==> o.message == AuthRequired
  {
    match ctx
    case None => Fail(AuthRequired)
    case Some(c) =>
      match c.auth
      case None => Fail(AuthRequired)
      case Some(a) => if a.user.None? then Fail(AuthRequired) else Pass
  }

  /** Every context the admin guard lets through, the authentication guard lets through too. */
  lemma AdminImpliesAuth(ctx: Option<Ctx>)
    ensures RequireAdmin(ctx).Pass? ==> RequireAuth(ctx).Pass?
  {
  }

  /** A missing context or a missing `auth` makes both guards throw their own error. */
  lemma MissingContextFails(ctx: Option<Ctx>)
    requires ctx.None? || ctx.value.auth.None?
    ensures RequireAdmin(ctx) == Fail(AdminRequired) && RequireAuth(ctx) == Fail(AuthRequired)
  {
  }
}
