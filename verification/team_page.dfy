/** The rules of src/app/pages/TeamPage.tsx: the user search, the avatar
    initials, the role badge colours, the per-role counts and the four
    hierarchy sections. */
module TeamPage {
  import opened Types
  import opened Text
  import opened Seqs
  import StatusBadge

  /** The user search: the query, ignoring case, occurs in the name, the
      email or the role's name. */
  predicate UserMatches(u: User, query: string)
  {
    || IncludesIgnoringCase(u.name, query)
    || IncludesIgnoringCase(u.email, query)
    || IncludesIgnoringCase(RoleName(u.role), query)
  }

  /** The callback handed to `filter`. */
  function Searches(query: string): User -> bool
  {
    (u: User) => UserMatches(u, query)
  }

  /** `filteredUsers`. */
  function FilteredUsers(users: seq<User>, query: string): seq<User>
  {
    Filter(users, Searches(query))
  }

  /** The result holds exactly the matching users, in list order. */
  lemma FilteredUsersSpec(users: seq<User>, query: string)
    ensures forall u :: u in FilteredUsers(users, query) ==> u in users && UserMatches(u, query)
    ensures forall u :: u in users && UserMatches(u, query) ==> u in FilteredUsers(users, query)
    ensures forall i :: 0 <= i < |users| ==>
      (i in KeptIndices(users, Searches(query)) <==> UserMatches(users[i], query))
    ensures Embeds(FilteredUsers(users, query), users, KeptIndices(users, Searches(query)))
    ensures IsSubsequence(FilteredUsers(users, query), users)
  {
    FilterMembers(users, Searches(query));
    FilterKeepsExactly(users, Searches(query));
  }

  /** An empty query lists every user. */
  lemma EmptyQueryShowsAllUsers(users: seq<User>)
    ensures FilteredUsers(users, "") == users
  {
    forall u | u in users ensures Searches("")(u) {
      EmptyQueryIncluded(u.name);
    }
    FilterKeepsAll(users, Searches(""));
  }

  /** Typing a role's name, in any letter case, finds every user of that role. */
  lemma RoleNameQueryFindsRole(users: seq<User>, r: UserRole)
    ensures forall u :: u in users && u.role == r ==> u in FilteredUsers(users, Lower(RoleName(r)))
    ensures forall u :: u in users && u.role == r ==> u in FilteredUsers(users, Upper(RoleName(r)))
  {
    FilteredUsersSpec(users, Lower(RoleName(r)));
    FilteredUsersSpec(users, Upper(RoleName(r)));
    IncludesIgnoresCase(RoleName(r), RoleName(r));
    assert IncludesIgnoringCase(RoleName(r), RoleName(r));
  }

  /** The first character of every part, `parts.map(n => n[0]).join('')`:
      an empty part gives `undefined`, which `join` writes as nothing. */
  function FirstChars(parts: seq<string>): string
    decreases |parts|
  {
    if |parts| == 0 then ""
    else (if parts[0] == "" then "" else [parts[0][0]]) + FirstChars(parts[1..])
  }

  /** `getInitials`. */
  function Initials(name: string): string
  {
    Upper(FirstChars(Split(name, ' ')))
  }

  predicate NonEmpty(part: string)
  {
    part != ""
  }

  /** The first characters of parts that are all non-empty. */
  function Heads(parts: seq<string>): (h: string)
    requires forall k :: 0 <= k < |parts| ==> parts[k] != ""
    ensures |h| == |parts|
  {
    seq(|parts|, k requires 0 <= k < |parts| => parts[k][0])
  }

  lemma {:induction false} FirstCharsSkipsEmpty(parts: seq<string>)
    ensures forall k :: 0 <= k < |Filter(parts, NonEmpty)| ==> Filter(parts, NonEmpty)[k] != ""
    ensures FirstChars(parts) == Heads(Filter(parts, NonEmpty))
    decreases |parts|
  {
    FilterMembers(parts, NonEmpty);
    if |parts| > 0 {
      FirstCharsSkipsEmpty(parts[1..]);
      var rest := Filter(parts[1..], NonEmpty);
      if parts[0] != "" {
        assert Filter(parts, NonEmpty) == [parts[0]] + rest;
        assert Heads([parts[0]] + rest) == [parts[0][0]] + Heads(rest);
      }
    }
  }

  /** The initials are the capitalised first characters of the non-empty
      space-separated parts of the name, in order: one per part, and a run
      of spaces adds nothing. */
  lemma InitialsSpec(name: string)
    ensures var parts := Filter(Split(name, ' '), NonEmpty);
      && |Initials(name)| == |parts|
      && forall k :: 0 <= k < |parts| ==> parts[k] != "" && Initials(name)[k] == UpperChar(parts[k][0])
  {
    FirstCharsSkipsEmpty(Split(name, ' '));
  }

  /** Initials hold no space: every part is free of the separator. */
  lemma InitialsHaveNoSpace(name: string)
    ensures ' ' !in Initials(name)
  {
    var parts := Filter(Split(name, ' '), NonEmpty);
    FirstCharsSkipsEmpty(Split(name, ' '));
    FilterMembers(Split(name, ' '), NonEmpty);
    forall k | 0 <= k < |parts| ensures Initials(name)[k] != ' ' {
      assert parts[k] in Split(name, ' ');
      assert parts[k][0] in parts[k];
    }
  }

  const Orange := "bg-orange-100 text-orange-700 hover:bg-orange-100"

  /** `getRoleBadgeColor`: a class for each role name, gray for anything else. */
  function RoleBadgeColor(role: string): (cls: string)
    ensures cls in {StatusBadge.Purple, StatusBadge.Blue, StatusBadge.Green, Orange, StatusBadge.Gray}
  {
    if role == "Admin" then StatusBadge.Purple
    else if role == "BDM" then StatusBadge.Blue
    else if role == "AM" then StatusBadge.Green
    else if role == "Recruiter" then Orange
    else StatusBadge.Gray
  }

  /** Each role's colour, read off the switch. */
  lemma RoleBadgeTable()
    ensures RoleBadgeColor(RoleName(Admin)) == StatusBadge.Purple
    ensures RoleBadgeColor(RoleName(BDM)) == StatusBadge.Blue
    ensures RoleBadgeColor(RoleName(AM)) == StatusBadge.Green
    ensures RoleBadgeColor(RoleName(Recruiter)) == Orange
  {
  }

  /** The four roles get four different colours, none of them gray, and any
      other string, a role name in other letter case included, gets gray. */
  lemma RoleBadgeColorSpec()
    ensures forall r: UserRole :: RoleBadgeColor(RoleName(r)) != StatusBadge.Gray
    ensures forall r: UserRole, s: UserRole :: r != s ==> RoleBadgeColor(RoleName(r)) != RoleBadgeColor(RoleName(s))
    ensures forall x :: RoleFromName(x).None? ==> RoleBadgeColor(x) == StatusBadge.Gray
  {
    var P, B, G, O, Y := StatusBadge.Purple, StatusBadge.Blue, StatusBadge.Green, Orange, StatusBadge.Gray;
    assert P[|P| - 6] == 'l' && O[|O| - 6] == 'g';
    assert B[|B| - 5] == 'e' && Y[|Y| - 5] == 'y';
    assert |G| != |P| && |G| != |B| && |P| != |B|;
    RoleBadgeTable();
  }

  /** The test `u.role === role`. */
  function HasRole(r: UserRole): User -> bool
  {
    (u: User) => u.role == r
  }

  /** One hierarchy section: the users of one role, from the full list. */
  function UsersWithRole(users: seq<User>, r: UserRole): seq<User>
  {
    Filter(users, HasRole(r))
  }

  /** One `roleStats` entry: the size of that role's section, counted on the
      full list whatever the search query is. */
  function RoleCount(users: seq<User>, r: UserRole): nat
  {
    |UsersWithRole(users, r)|
  }

  /** Each section lists exactly the users of its role, in list order. */
  lemma UsersWithRoleSpec(users: seq<User>, r: UserRole)
    ensures forall u :: u in UsersWithRole(users, r) <==> u in users && u.role == r
    ensures IsSubsequence(UsersWithRole(users, r), users)
  {
    FilterMembers(users, HasRole(r));
    FilterIsSubsequence(users, HasRole(r));
  }

  /** The four sections split the list: together they hold every user
      exactly as often as the list does. */
  lemma {:induction false} SectionsPartition(users: seq<User>)
    ensures multiset(users) == multiset(UsersWithRole(users, Admin)) + multiset(UsersWithRole(users, BDM))
      + multiset(UsersWithRole(users, AM)) + multiset(UsersWithRole(users, Recruiter))
    decreases |users|
  {
    if |users| > 0 {
      var u, rest := users[0], users[1..];
      SectionsPartition(rest);
      assert users == [u] + rest;
      assert multiset(users) == multiset{u} + multiset(rest);
      forall r: UserRole ensures multiset(UsersWithRole(users, r))
        == (if u.role == r then multiset{u} else multiset{}) + multiset(UsersWithRole(rest, r))
      {
        assert UsersWithRole(users, r) == (if u.role == r then [u] else []) + UsersWithRole(rest, r);
      }
    }
  }

  /** The four counts add up to the number of users. */
  lemma RoleCountsSum(users: seq<User>)
    ensures RoleCount(users, Admin) + RoleCount(users, BDM) + RoleCount(users, AM)
      + RoleCount(users, Recruiter) == |users|
  {
    SectionsPartition(users);
    assert |multiset(users)| == |users|;
  }

  /** Every user appears in the section of its role and in no other. */
  lemma OneSectionPerUser(users: seq<User>, u: User, r: UserRole)
    requires u in users
    ensures u in UsersWithRole(users, r) <==> r == u.role
  {
    UsersWithRoleSpec(users, r);
  }
}
