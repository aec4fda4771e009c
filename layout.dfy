/**
 * The page layout: the side navigation filtered by the signed-in user's
 * role, the user loaded once on mount, and the sidebar MRR in the display
 * currency.
 */
module Layout {
  import opened Common
  import opened Lists

  /** A navigation entry; an entry without roles is shown to everyone. */
  datatype NavItem = NavItem(title: string, page: string, roles: Option<seq<string>>)

  const AdminAndUser: seq<string> := ["admin", "user"]
  const AdminOnly: seq<string> := ["admin"]

  /** The first three entries of `navigationItems`, open to admins and users. */
  const SharedItems: seq<NavItem> := [
    NavItem("Executive Dashboard", "ExecutiveDashboard", Some(AdminAndUser)),
    NavItem("Regional Intelligence", "RegionalDashboard", Some(AdminAndUser)),
    NavItem("Revenue Analytics", "RevenueAnalytics", Some(AdminAndUser))
  ]

  /** The last three entries, for admins only. */
  const AdminItems: seq<NavItem> := [
    NavItem("Data Uploader", "DataUploader", Some(AdminOnly)),
    NavItem("Data Integration", "DataIntegration", Some(AdminOnly)),
    NavItem("Developer Docs", "DeveloperDocumentation", Some(AdminOnly))
  ]

  /** `navigationItems`, in order (the commented-out entries are not part of it). */
  const NavigationItems: seq<NavItem> := SharedItems + AdminItems

  /** The user record returned by the user service; its role may be missing. */
  datatype User = User(role: Option<string>)

  /** `user?.role || 'user'`: a missing user, a missing role and an empty role all count as 'user'. */
  function EffectiveRole(user: Option<User>): (role: string)
    ensures role != ""
    ensures user.None? ==> role == "user"
    ensures user.Some? && user.value.role.Some? && user.value.role.value != "" ==> role == user.value.role.value
  {
    if user.Some? && user.value.role.Some? && user.value.role.value != "" then user.value.role.value else "user"
  }

  /** `!item.roles || item.roles.includes(role)`. */
  predicate Visible(item: NavItem, role: string)
  {
    item.roles.None? || role in item.roles.value
  }

  function VisibleTo(role: string): (visible: NavItem -> bool)
    ensures forall item: NavItem :: item.roles.None? ==> visible(item)
    ensures forall item: NavItem :: item.roles.Some? ==> (visible(item) <==> role in item.roles.value)
  {
    (item: NavItem) => Visible(item, role)
  }

  /** `filteredNavigation`. */
  function FilteredNavigation(user: Option<User>): (r: seq<NavItem>)
    ensures forall item :: item in r <==> item in NavigationItems && Visible(item, EffectiveRole(user))
    ensures exists idx :: Embeds(idx, r, NavigationItems)
  {
    FilterKeepsOrder(NavigationItems, VisibleTo(EffectiveRole(user)));
    Filter(NavigationItems, VisibleTo(EffectiveRole(user)))
  }

  function Titles(items: seq<NavItem>): (r: seq<string>)
    ensures |r| == |items|
    ensures forall i :: 0 <= i < |items| ==> r[i] == items[i].title
  {
    seq(|items|, i requires 0 <= i < |items| => items[i].title)
  }

  /** An administrator sees all six entries. */
  lemma AdminSeesAll(user: Option<User>)
    requires EffectiveRole(user) == "admin"
    ensures FilteredNavigation(user) == NavigationItems
  {
    forall i | 0 <= i < |NavigationItems|
      ensures VisibleTo("admin")(NavigationItems[i])
    {
      assert "admin" in NavigationItems[i].roles.value;
    }
    FilterAll(NavigationItems, VisibleTo("admin"));
  }

  /**
   * With no user loaded, or with the role 'user', only the three dashboards
   * remain.
   */
  lemma UserSeesDashboards(user: Option<User>)
    requires EffectiveRole(user) == "user"
    ensures Titles(FilteredNavigation(user)) == ["Executive Dashboard", "Regional Intelligence", "Revenue Analytics"]
  {
    assert FilteredNavigation(user) == SharedItems by {
      UserFilter();
    }
    var t := Titles(SharedItems);
    assert t[0] == "Executive Dashboard" && t[1] == "Regional Intelligence" && t[2] == "Revenue Analytics";
  }

  lemma UserFilter()
    ensures Filter(NavigationItems, VisibleTo("user")) == SharedItems
  {
    var p := VisibleTo("user");
    var head, tail := SharedItems, AdminItems;
    FilterAppend(head, tail, p);
    assert "user" in AdminAndUser by {
      assert AdminAndUser[1] == "user";
    }
    assert "user" !in AdminOnly;
    forall i | 0 <= i < |head|
      ensures p(head[i])
    {
      assert head[i].roles == Some(AdminAndUser) by {
        assert i == 0 || i == 1 || i == 2;
      }
    }
    FilterAll(head, p);
    forall i | 0 <= i < |tail|
      ensures !p(tail[i])
    {
      assert tail[i].roles == Some(AdminOnly) by {
        assert i == 0 || i == 1 || i == 2;
      }
    }
    FilterNone(tail, p);
  }

  /** Any other role is listed on no entry, so it sees no navigation at all. */
  lemma OtherRoleSeesNothing(user: Option<User>)
    requires EffectiveRole(user) != "admin" && EffectiveRole(user) != "user"
    ensures FilteredNavigation(user) == []
  {
    var role := EffectiveRole(user);
    forall i | 0 <= i < |NavigationItems|
      ensures !VisibleTo(role)(NavigationItems[i])
    {
      assert NavigationItems[i].roles == Some(AdminAndUser) || NavigationItems[i].roles == Some(AdminOnly);
    }
    FilterNone(NavigationItems, VisibleTo(role));
  }

  /** The layout's user state. */
  class LayoutState {
    var user: Option<User>
    var isLoading: bool

    constructor()
      ensures user == None && isLoading
    {
      user := None;
      isLoading := true;
    }

    /**
     * `loadUser()` with the outcome of the user service as a parameter: a
     * user is stored, a failure leaves the user as it was, and loading ends
     * either way.
     */
    method LoadUser(outcome: Result<User>)
      modifies this
      ensures !isLoading
      ensures outcome.Ok? ==> user == Some(outcome.value)
      ensures outcome.Err? ==> user == old(user)
    {
      if outcome.Ok? {
        user := Some(outcome.value);
      }
      isLoading := false;
    }
  }

  /** A failed user lookup on mount leaves the user empty, so the 'user' navigation applies. */
  method FailedLookupShowsUserNavigation(error: string) returns (nav: seq<NavItem>)
    ensures Titles(nav) == ["Executive Dashboard", "Regional Intelligence", "Revenue Analytics"]
  {
    var layout := new LayoutState();
    layout.LoadUser(Err(error));
    nav := FilteredNavigation(layout.user);
    UserSeesDashboards(layout.user);
  }

  /** The sidebar MRR: INR as stored, any other currency divided by the rate. */
  function SidebarMrr(mrrInr: real, currency: string): (shown: real)
    ensures currency == "INR" ==> shown == mrrInr
    ensures currency != "INR" ==> shown * Rate == mrrInr
  {
    if currency == "INR" then mrrInr else mrrInr / Rate
  }
}
