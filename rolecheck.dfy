/** The role middleware: a route names the roles it admits, and a request from a
    caller without one of them is answered before the controller runs. */
module Middleware {
  import opened Common

  /** The argument of `roleCheck`: one role name or an array of them. */
  datatype Allowed = Single(role: string) | Several(roles: seq<string>)

  /** `Array.isArray(allowedRoles) ? allowedRoles : [allowedRoles]` */
  function Roles(a: Allowed): (rs: seq<string>)
    ensures a.Single? ==> rs == [a.role]
    ensures a.Several? ==> rs == a.roles
  {
    match a
    case Single(role) => [role]
    case Several(roles) => roles
  }

  /** What the middleware does with a request: the response it sends, if any, and how
      many times it calls `next`. */
  datatype Gate = Gate(response: Option<Failure>, nextCalls: nat)

  /** `roleCheck(allowed)` applied to a request whose authenticated caller, if any, has
      the given role. */
  function RoleCheck(allowed: Allowed, caller: Option<Role>): (g: Gate)
    ensures caller.None? ==> g == Gate(Some(Unauthorized("Authentication required")), 0)
    ensures caller.Some? && RoleName(caller.value) !in Roles(allowed) ==>
      g == Gate(Some(Forbidden("Access denied. Insufficient permissions.")), 0)
    ensures g.nextCalls == 1 <==> caller.Some? && RoleName(caller.value) in Roles(allowed)
    ensures g.nextCalls == 1 ==> g.response.None?
    ensures g.nextCalls <= 1 && (g.nextCalls == 0 <==> g.response.Some?)
  {
    if caller.None? then Gate(Some(Unauthorized("Authentication required")), 0)
    else if RoleName(caller.value) !in Roles(allowed) then
      Gate(Some(Forbidden("Access denied. Insufficient permissions.")), 0)
    else Gate(None, 1)
  }

  /** A single role string behaves as the one-element array holding it. */
  lemma SingleIsOneElementList(role: string, caller: Option<Role>)
    ensures RoleCheck(Single(role), caller) == RoleCheck(Several([role]), caller)
  {
  }

  /** Admitting more roles never turns away a caller who was let through. */
  lemma {:induction false} MoreRolesAdmitMore(rs: seq<string>, extra: seq<string>, caller: Option<Role>)
    requires RoleCheck(Several(rs), caller).nextCalls == 1
    ensures RoleCheck(Several(rs + extra), caller).nextCalls == 1
  {
    var name := RoleName(caller.value);
    var i :| 0 <= i < |rs| && rs[i] == name;
    assert (rs + extra)[i] == name;
  }

  /** The staff gate `roleCheck(["admin", "recorder"])` lets through exactly the staff
      roles. */
  lemma StaffGate(caller: Role)
    ensures RoleCheck(Several(["admin", "recorder"]), Some(caller)).nextCalls == 1 <==> IsStaff(caller)
  {
  }

  /** The admin gate `roleCheck("admin")` lets through admins only. */
  lemma AdminGate(caller: Role)
    ensures RoleCheck(Single("admin"), Some(caller)).nextCalls == 1 <==> caller == Admin
  {
  }
}
