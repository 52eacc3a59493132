/** The access mediator of `rbac/auth.go`: three decisions over the role document
    (`roles.json`) and the branch-policy document (`branch_permissions.json`), both read
    afresh on every question. A bad roles document denies everything; a bad branch-policy
    document allows everything. */
module Auth {
  import opened Wrappers

  /** The fixed role -> allowed-commands table. */
  const RolePermissions: map<string, seq<string>> := map[
    "admin" := ["commit", "status", "log", "add", "init", "push", "pull", "create-branch", "checkout", "branch"],
    "developer" := ["commit", "status", "log", "add", "branch"],
    "viewer" := ["status", "log"]
  ]

  /** `roles.json` as parsed: user -> role name; `None` when the file is missing or does not parse. */
  type RolesFile = Option<map<string, string>>

  /** `branch_permissions.json` is unmarshalled into a different record by each of the two
      branch questions, so each question has its own view of it, `None` when the file is
      missing or does not unmarshal into that record. `createView` holds each user's
      `global.canCreateBranch`, `accessView` each user's `branchAccess` map (branch -> level). */
  datatype PolicyFile = PolicyFile(
    createView: Option<map<string, bool>>,
    accessView: Option<map<string, map<string, string>>>)

  /** A user without an entry has the empty role, as a Go map lookup gives. */
  function RoleOf(roles: map<string, string>, user: string): string {
    if user in roles then roles[user] else ""
  }

  /** The commands a role's list holds; an unknown role has no list. */
  function CommandsOf(role: string): seq<string> {
    if role in RolePermissions then RolePermissions[role] else []
  }

  /** The decision `HasPermission` computes. */
  predicate Allows(roles: RolesFile, user: string, command: string) {
    roles.Some? && command in CommandsOf(RoleOf(roles.value, user))
  }

  /** `HasPermission`: scans the role's list for the command, returning at the first match. */
  method HasPermission(roles: RolesFile, user: string, command: string) returns (ok: bool)
    ensures ok <==> roles.Some? && command in CommandsOf(RoleOf(roles.value, user))
  {
    if roles.None? {
      return false;
    }
    var perms := CommandsOf(RoleOf(roles.value, user));
    var i := 0;
    while i < |perms|
      invariant 0 <= i <= |perms|
      invariant forall j :: 0 <= j < i ==> perms[j] != command
    {
      if perms[i] == command {
        return true;
      }
      i := i + 1;
    }
    return false;
  }

  /** Fails closed: no roles document, no command. */
  lemma RolesMissingDeniesAll(user: string, command: string)
    ensures !Allows(None, user, command)
  {
  }

  /** A user the roles document does not name is refused every command. */
  lemma UnknownUserDenied(roles: map<string, string>, user: string, command: string)
    requires user !in roles
    ensures !Allows(Some(roles), user, command)
  {
    assert "" !in RolePermissions;
  }

  /** Each role's list contains the next lower role's list, and only admins may push or pull. */
  lemma {:induction false} RoleHierarchy(command: string)
    ensures command in RolePermissions["viewer"] ==> command in RolePermissions["developer"]
    ensures command in RolePermissions["developer"] ==> command in RolePermissions["admin"]
    ensures forall role :: role in RolePermissions && role != "admin" ==>
              "push" !in RolePermissions[role] && "pull" !in RolePermissions[role]
  {
    var v, dv, a := RolePermissions["viewer"], RolePermissions["developer"], RolePermissions["admin"];
    if command in v {
      assert command == v[0] || command == v[1];
      assert dv[1] == v[0] && dv[2] == v[1];
    }
    if command in dv {
      assert command == dv[0] || command == dv[1] || command == dv[2] || command == dv[3] || command == dv[4];
      assert a[0] == dv[0] && a[1] == dv[1] && a[2] == dv[2] && a[3] == dv[3] && a[9] == dv[4];
    }
    forall role | role in RolePermissions && role != "admin"
      ensures "push" !in RolePermissions[role] && "pull" !in RolePermissions[role]
    {
      assert role == "developer" || role == "viewer";
    }
  }

  /** `CanCreateBranch`: the user's `global.canCreateBranch` flag, false for a user the
      policy does not name; allowed when the policy document is missing or unparseable. */
  function CanCreateBranch(policy: PolicyFile, user: string): (ok: bool)
    ensures policy.createView.None? ==> ok
    ensures policy.createView.Some? ==>
              (ok <==> user in policy.createView.value && policy.createView.value[user])
  {
    match policy.createView
    case None => true
    case Some(flags) => user in flags && flags[user]
  }

  /** The access level a policy gives a user on a branch; "" when there is no entry. */
  function LevelOf(access: map<string, map<string, string>>, user: string, branch: string): string {
    if user in access && branch in access[user] then access[user][branch] else ""
  }

  /** `CanAccessBranch`: level `edit` grants every mode, level `view` grants mode `view`
      only, any other level (no entry included) denies; allowed when the policy document
      is missing or unparseable. */
  function CanAccessBranch(policy: PolicyFile, user: string, branch: string, mode: string): (ok: bool)
    ensures policy.accessView.None? ==> ok
    ensures policy.accessView.Some? ==>
              var level := LevelOf(policy.accessView.value, user, branch);
              (ok <==> level == "edit" || (level == "view" && mode == "view"))
  {
    match policy.accessView
    case None => true
    case Some(access) =>
      var level := LevelOf(access, user, branch);
      if level == "edit" then true
      else if level == "view" && mode == "view" then true
      else false
  }

  /** Whoever may edit a branch may view it. */
  lemma EditImpliesView(policy: PolicyFile, user: string, branch: string)
    ensures CanAccessBranch(policy, user, branch, "edit") ==> CanAccessBranch(policy, user, branch, "view")
  {
  }

  /** With a readable policy, a user without an entry for the branch may neither view nor edit it. */
  lemma NoEntryDenies(access: map<string, map<string, string>>, user: string, branch: string, mode: string)
    requires user !in access || branch !in access[user]
    ensures !CanAccessBranch(PolicyFile(None, Some(access)), user, branch, mode)
  {
  }
}
