/** Who may manage leaves and how long a member's leave may be (src/utils/permissions.js). */
module Permissions {
  import opened Wrappers
  import opened Text

  /** The parts of a guild member the checks look at: permission flags and role ids. */
  datatype Member = Member(id: string, username: string, permissions: set<string>, roles: set<string>)

  /** The configuration the checks read: the optional admin role, the role duration limits
      (role id to days, in the object's key order) and the weekly request cap. */
  datatype Config = Config(adminRole: Option<string>, roleLimits: seq<(string, int)>, maxRequestsPerWeek: int)

  const Administrator := "Administrator"
  const ManageRoles := "ManageRoles"

  /** Administrator, ManageRoles, or the configured admin role. */
  predicate HasAdminPermission(member: Member, config: Config) {
    || Administrator in member.permissions
    || ManageRoles in member.permissions
    || (Given(config.adminRole) && config.adminRole.value in member.roles)
  }

  predicate CanManageLeaves(member: Member, config: Config) {
    HasAdminPermission(member, config)
  }

  /** Gaining permissions or roles never takes the right away. */
  lemma AdminPermissionMonotone(a: Member, b: Member, config: Config)
    requires a.permissions <= b.permissions && a.roles <= b.roles
    requires CanManageLeaves(a, config)
    ensures CanManageLeaves(b, config)
  {
  }

  /** Without a flag and without a configured admin role nobody is an admin. */
  lemma NoAdminWithoutFlagOrRole(member: Member, config: Config)
    requires Administrator !in member.permissions && ManageRoles !in member.permissions
    requires !Given(config.adminRole)
    ensures !CanManageLeaves(member, config)
  {
  }

  /** The largest limit among the limited roles the member holds, over the limits in key
      order; None when the member holds none of them. */
  function HeldLimit(member: Member, roleLimits: seq<(string, int)>): Option<int>
    decreases |roleLimits|
  {
    if roleLimits == [] then None
    else
      var rest := HeldLimit(member, roleLimits[..|roleLimits| - 1]);
      var (roleId, limit) := roleLimits[|roleLimits| - 1];
      if roleId !in member.roles then rest
      else if rest.None? || limit > rest.value then Some(limit)
      else rest
  }

  /** The held limit is absent exactly when no limited role is held, and otherwise it is the
      limit of a held role and at least the limit of every held role: the maximum. */
  lemma {:induction false} HeldLimitIsMaximum(member: Member, roleLimits: seq<(string, int)>)
    ensures var m := HeldLimit(member, roleLimits);
      && (m.None? <==> forall i :: 0 <= i < |roleLimits| ==> roleLimits[i].0 !in member.roles)
      && (m.Some? ==> exists i :: 0 <= i < |roleLimits| && roleLimits[i].0 in member.roles
                                  && roleLimits[i].1 == m.value)
      && (m.Some? ==> forall i :: 0 <= i < |roleLimits| && roleLimits[i].0 in member.roles
                                  ==> roleLimits[i].1 <= m.value)
    decreases |roleLimits|
  {
    if roleLimits != [] {
      var n := |roleLimits| - 1;
      var init := roleLimits[..n];
      HeldLimitIsMaximum(member, init);
      assert forall i :: 0 <= i < n ==> roleLimits[i] == init[i];
      var rest := HeldLimit(member, init);
      if rest.Some? && !(roleLimits[n].0 in member.roles && roleLimits[n].1 > rest.value) {
        var i :| 0 <= i < n && init[i].0 in member.roles && init[i].1 == rest.value;
        assert roleLimits[i] == init[i];
      }
    }
  }

  /** getMaxLeaveDuration: the loop keeps the largest limit seen among held roles. */
  method GetMaxLeaveDuration(member: Member, roleLimits: seq<(string, int)>) returns (maxDuration: Option<int>)
    ensures roleLimits == [] ==> maxDuration.None?
    ensures maxDuration == HeldLimit(member, roleLimits)
  {
    if |roleLimits| == 0 {
      return None;
    }
    maxDuration := None;
    for n := 0 to |roleLimits|
      invariant maxDuration == HeldLimit(member, roleLimits[..n])
    {
      assert roleLimits[..n + 1][..n] == roleLimits[..n];
      var (roleId, limit) := roleLimits[n];
      if roleId in member.roles {
        if maxDuration.None? || limit > maxDuration.value {
          maxDuration := Some(limit);
        }
      }
    }
    assert roleLimits[..|roleLimits|] == roleLimits;
  }
}
