/** The role-based menu of src/app/components/Sidebar.tsx: a static ordered
    table of destinations, each with the roles allowed to see it, filtered
    by the current role; and the rule that highlights the active item. */
module Sidebar {
  import opened Types
  import opened Seqs

  /** One menu entry; `title` holds the entry's `label` (a reserved word in
      Dafny), and the icon is presentation and is not modelled. */
  datatype MenuItem = MenuItem(title: string, path: string, roles: set<UserRole>)

  const DashboardItem := MenuItem("Dashboard", "/dashboard", {Admin, BDM, AM, Recruiter})
  const CandidatesItem := MenuItem("Candidates", "/candidates", {Admin, BDM, AM, Recruiter})
  const ClientsItem := MenuItem("Clients", "/clients", {Admin, BDM, AM, Recruiter})
  const PositionsItem := MenuItem("Positions", "/positions", {Admin, BDM, AM})
  const TeamItem := MenuItem("Team", "/team", {Admin, BDM, AM})
  const ReportsItem := MenuItem("Reports", "/reports", {Admin, BDM})

  /** `menuItems`, in menu order. */
  const MenuItems: seq<MenuItem> :=
    [DashboardItem, CandidatesItem, ClientsItem, PositionsItem, TeamItem, ReportsItem]

  /** The test `item.roles.includes(role)`. */
  function Allows(role: UserRole): MenuItem -> bool
  {
    (it: MenuItem) => role in it.roles
  }

  /** `filteredMenuItems`: the table narrowed to the items whose roles include `role`. */
  function VisibleItems(role: UserRole): seq<MenuItem>
  {
    Filter(MenuItems, Allows(role))
  }

  /** Every visible item comes from the table and admits the role, every
      table item that admits the role is visible, and the table's order is kept. */
  lemma VisibleItemsSpec(role: UserRole)
    ensures forall it :: it in VisibleItems(role) ==> it in MenuItems && role in it.roles
    ensures forall it :: it in MenuItems && role in it.roles ==> it in VisibleItems(role)
    ensures IsSubsequence(VisibleItems(role), MenuItems)
  {
    FilterMembers(MenuItems, Allows(role));
    FilterIsSubsequence(MenuItems, Allows(role));
  }

  /** `isActive`: exact, case-sensitive equality of the location with the item's path. */
  predicate IsActive(pathname: string, item: MenuItem)
  {
    pathname == item.path
  }

  /** One table entry, kept when it admits the role. */
  function KeepIf(role: UserRole, it: MenuItem): seq<MenuItem>
  {
    if role in it.roles then [it] else []
  }

  /** The first three entries admit every role. */
  lemma HeadFiltered(role: UserRole)
    ensures VisibleItems(role) == [DashboardItem, CandidatesItem, ClientsItem]
      + Filter([PositionsItem, TeamItem, ReportsItem], Allows(role))
  {
    var p := Allows(role);
    var t3 := [PositionsItem, TeamItem, ReportsItem];
    var t2 := [ClientsItem] + t3;
    assert Filter(t2, p) == [ClientsItem] + Filter(t3, p) by { FilterCons(ClientsItem, t3, p); }
    var t1 := [CandidatesItem] + t2;
    assert Filter(t1, p) == [CandidatesItem] + Filter(t2, p) by { FilterCons(CandidatesItem, t2, p); }
    assert MenuItems == [DashboardItem] + t1;
    FilterCons(DashboardItem, t1, p);
  }

  /** The last three entries, one at a time. */
  lemma TailFiltered(role: UserRole)
    ensures Filter([PositionsItem, TeamItem, ReportsItem], Allows(role))
      == KeepIf(role, PositionsItem) + KeepIf(role, TeamItem) + KeepIf(role, ReportsItem)
  {
    var p := Allows(role);
    var t5 := [ReportsItem];
    assert Filter(t5, p) == KeepIf(role, ReportsItem) by { FilterCons(ReportsItem, [], p); }
    var t4 := [TeamItem] + t5;
    assert Filter(t4, p) == KeepIf(role, TeamItem) + Filter(t5, p) by { FilterCons(TeamItem, t5, p); }
    assert [PositionsItem, TeamItem, ReportsItem] == [PositionsItem] + t4;
    FilterCons(PositionsItem, t4, p);
  }

  /** Recruiters see Dashboard, Candidates and Clients, in that order. */
  lemma RecruiterMenu()
    ensures VisibleItems(Recruiter) == [DashboardItem, CandidatesItem, ClientsItem]
  {
    HeadFiltered(Recruiter);
    TailFiltered(Recruiter);
  }

  /** Assistant managers see everything except Reports, in table order. */
  lemma AssistantManagerMenu()
    ensures VisibleItems(AM) == [DashboardItem, CandidatesItem, ClientsItem, PositionsItem, TeamItem]
  {
    HeadFiltered(AM);
    TailFiltered(AM);
  }

  /** Admins and business development managers see the whole table. */
  lemma FullMenuRoles(role: UserRole)
    requires role == Admin || role == BDM
    ensures VisibleItems(role) == MenuItems
  {
    forall it | it in MenuItems ensures Allows(role)(it) {
    }
    FilterKeepsAll(MenuItems, Allows(role));
  }

  /** Dashboard, Candidates and Clients lead every role's menu. */
  lemma CommonItems(role: UserRole)
    ensures [DashboardItem, CandidatesItem, ClientsItem] <= VisibleItems(role)
  {
    HeadFiltered(role);
  }

  /** The menus nest as prefixes: Recruiter, then AM, then BDM, which equals Admin. */
  lemma MenusNest()
    ensures VisibleItems(Recruiter) <= VisibleItems(AM) <= VisibleItems(BDM)
    ensures VisibleItems(BDM) == VisibleItems(Admin)
  {
    RecruiterMenu();
    AssistantManagerMenu();
    FullMenuRoles(BDM);
    FullMenuRoles(Admin);
  }

  /** No two items share a path, so at most one item is highlighted. */
  lemma AtMostOneActive(pathname: string, i: nat, j: nat)
    requires i < |MenuItems| && j < |MenuItems|
    requires IsActive(pathname, MenuItems[i]) && IsActive(pathname, MenuItems[j])
    ensures i == j
  {
  }

  /** A candidate's detail path, such as `/candidates/c1`, highlights no
      item, not even Candidates: every menu path is shorter. */
  lemma DetailPathHighlightsNothing(id: string)
    ensures forall it :: it in MenuItems ==> !IsActive("/candidates/" + id, it)
  {
  }
}
