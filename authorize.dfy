/**
 * The role and permission check that guards the API handlers. The session is
 * given as an optional user and the handler as a function of that user.
 */
module Authorize {
  import opened Common

  /** The user of a session; the role and the permission list may be missing. */
  datatype User = User(role: Option<string>, permissions: Option<seq<string>>)

  /** The options of a guarded route; a missing or empty list imposes nothing. */
  datatype AuthorizationOptions = AuthorizationOptions(roles: Option<seq<string>>, permissions: Option<seq<string>>)

  /** What the guard answers: 401, 403, or whatever the handler returned. */
  datatype Decision<T> = Unauthorized | Forbidden | Handled(result: T)

  function StatusOf<T>(d: Decision<T>): Option<nat> {
    match d
    case Unauthorized => Some(401)
    case Forbidden => Some(403)
    case Handled(_) => None
  }

  /** `options.permissions.filter(p => !userPermissions.includes(p))`, in order. */
  function Missing(required: seq<string>, granted: seq<string>): (r: seq<string>)
    ensures forall p | p in r :: p in required && p !in granted
    ensures forall p | p in required && p !in granted :: p in r
    ensures |r| <= |required|
  {
    if required == [] then []
    else (if required[0] in granted then [] else [required[0]]) + Missing(required[1..], granted)
  }

  /** The role check: with a non-empty role list, the user's role must be present, non-empty and listed. */
  predicate RoleAllowed(user: User, roles: seq<string>) {
    roles == [] || (user.role.Some? && user.role.value != "" && user.role.value in roles)
  }

  /** `authorize`: no user gives 401, a failed role or permission check 403, otherwise the handler runs. */
  function Authorize<T>(session: Option<User>, options: AuthorizationOptions, handler: User -> T): (d: Decision<T>)
    ensures session.None? <==> d.Unauthorized?
    ensures d.Handled? ==> d.result == handler(session.value)
  {
    if session.None? then Unauthorized
    else
      var user := session.value;
      var roles := options.roles.GetOr([]);
      var required := options.permissions.GetOr([]);
      if !RoleAllowed(user, roles) then Forbidden
      else if |Missing(required, user.permissions.GetOr([]))| > 0 then Forbidden
      else Handled(handler(user))
  }

  /** The access rule stated directly: a user, the role when roles are listed, and every listed permission. */
  predicate Allowed(session: Option<User>, options: AuthorizationOptions) {
    && session.Some?
    && RoleAllowed(session.value, options.roles.GetOr([]))
    && forall p | p in options.permissions.GetOr([]) :: p in session.value.permissions.GetOr([])
  }

  /** The handler runs exactly when the access rule holds, and its result is returned unchanged. */
  lemma AuthorizeIffAllowed<T>(session: Option<User>, options: AuthorizationOptions, handler: User -> T)
    ensures Authorize(session, options, handler).Handled? <==> Allowed(session, options)
    ensures Allowed(session, options) ==> Authorize(session, options, handler) == Handled(handler(session.value))
    ensures session.Some? && !Allowed(session, options) ==> Authorize(session, options, handler) == Forbidden
  {
    if session.Some? {
      var required := options.permissions.GetOr([]);
      var granted := session.value.permissions.GetOr([]);
      var missing := Missing(required, granted);
      if |missing| > 0 {
        assert missing[0] in missing;
      }
    }
  }

  /** Options with no roles and no permissions let every signed-in user through. */
  lemma EmptyOptionsAllowAll<T>(user: User, handler: User -> T)
    ensures Authorize(Some(user), AuthorizationOptions(None, Some([])), handler) == Handled(handler(user))
    ensures Authorize(Some(user), AuthorizationOptions(Some([]), None), handler) == Handled(handler(user))
  {
  }

  /** Granting a user further permissions never takes away access. */
  lemma MorePermissionsKeepAccess<T>(user: User, extra: seq<string>, options: AuthorizationOptions, handler: User -> T)
    requires Authorize(Some(user), options, handler).Handled?
    ensures Authorize(Some(user.(permissions := Some(user.permissions.GetOr([]) + extra))), options, handler).Handled?
  {
    AuthorizeIffAllowed(Some(user), options, handler);
    var more := user.(permissions := Some(user.permissions.GetOr([]) + extra));
    AuthorizeIffAllowed(Some(more), options, handler);
  }
}
