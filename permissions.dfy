/**
 * The mapping from a user's Cognito groups to what the website lets the user see
 * and call (website/src/hooks/usePermissions.ts). The permissions record starts
 * all-false and its fields are switched on step by step by an if-chain over the
 * group names; `groups.includes(g)` is membership in the group list.
 */
module UserPermissions {

  datatype ApiPermissions = ApiPermissions(
    fleets: bool, events: bool, users: bool, races: bool, cars: bool, allModels: bool)

  datatype SideNavPermissions = SideNavPermissions(
    registration: bool, commentator: bool, operator: bool, admin: bool)

  datatype TopNavPermissions = TopNavPermissions(eventSelection: bool)

  datatype Permissions = Permissions(
    api: ApiPermissions, sideNavItems: SideNavPermissions, topNavItems: TopNavPermissions)

  const NoApi := ApiPermissions(false, false, false, false, false, false)
  const FullApi := ApiPermissions(true, true, true, true, true, true)

  /** The record every call starts from: nothing granted. */
  const DefaultPermissions := Permissions(
    NoApi, SideNavPermissions(false, false, false, false), TopNavPermissions(false))

  /** The record an administrator ends with: everything granted. */
  const AllPermissions := Permissions(
    FullApi, SideNavPermissions(true, true, true, true), TopNavPermissions(true))

  /**
   * `getPermissions(groups)`: the if-chain that switches fields of the default record on.
   * Each navigation flag holds exactly when one of the groups that grant it is present;
   * the API flags come from the first of operator-or-admin, registration, commentator.
   */
  method GetPermissions(groups: seq<string>) returns (permissions: Permissions)
    ensures permissions.topNavItems.eventSelection
      <==> "admin" in groups || "operator" in groups || "commentator" in groups
    ensures permissions.sideNavItems.registration <==> "registration" in groups || "admin" in groups
    ensures permissions.sideNavItems.commentator <==> "commentator" in groups || "admin" in groups
    ensures permissions.sideNavItems.operator <==> "operator" in groups || "admin" in groups
    ensures permissions.sideNavItems.admin <==> "admin" in groups
    ensures "operator" in groups || "admin" in groups ==> permissions.api == FullApi
    ensures !("operator" in groups || "admin" in groups) && "registration" in groups
      ==> permissions.api == NoApi.(users := true)
    ensures !("operator" in groups || "admin" in groups || "registration" in groups) && "commentator" in groups
      ==> permissions.api == NoApi.(events := true)
    ensures !("operator" in groups || "admin" in groups || "registration" in groups || "commentator" in groups)
      ==> permissions.api == NoApi
    ensures groups == [] ==> permissions == DefaultPermissions
    ensures "admin" in groups ==> permissions == AllPermissions
  {
    permissions := DefaultPermissions;

    if "admin" in groups || "operator" in groups || "commentator" in groups {
      permissions := permissions.(topNavItems := permissions.topNavItems.(eventSelection := true));
    }

    if "registration" in groups || "admin" in groups {
      permissions := permissions.(sideNavItems := permissions.sideNavItems.(registration := true));
    }
    if "commentator" in groups || "admin" in groups {
      permissions := permissions.(sideNavItems := permissions.sideNavItems.(commentator := true));
    }
    if "operator" in groups || "admin" in groups {
      permissions := permissions.(sideNavItems := permissions.sideNavItems.(operator := true));
    }
    if "admin" in groups {
      permissions := permissions.(sideNavItems := permissions.sideNavItems.(admin := true));
    }

    if "operator" in groups || "admin" in groups {
      permissions := permissions.(api := permissions.api.(
        fleets := true, events := true, users := true, races := true, cars := true, allModels := true));
    } else if "registration" in groups {
      permissions := permissions.(api := permissions.api.(users := true));
    } else if "commentator" in groups {
      permissions := permissions.(api := permissions.api.(events := true));
    }
  }
}
