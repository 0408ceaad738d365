/**
 * The team directory: a search over names and professions, a role filter, the role badges, and
 * the hand-off of a profile edit to the page.
 */
module TeamManagement {
  import opened Wrappers
  import opened Seqs
  import opened Text
  import opened MockData

  predicate MatchesSearch(m: UserProfile, query: string) {
    Contains(LowerStr(m.name), LowerStr(query)) || Contains(LowerStr(m.profession), LowerStr(query))
  }

  /** `!roleFilter || member.role === roleFilter`: no filter, or an empty one, admits every role. */
  predicate MatchesRole(m: UserProfile, roleFilter: Option<string>) {
    roleFilter.None? || roleFilter.value == "" || StaffRoleText(m.role) == roleFilter.value
  }

  /** `filteredMembers`: an order-preserving selection of the members. */
  function FilteredMembers(members: seq<UserProfile>, query: string, roleFilter: Option<string>)
    : (r: seq<UserProfile>)
    ensures IsSubsequence(r, members)
    ensures forall m :: m in r <==> m in members && MatchesSearch(m, query) && MatchesRole(m, roleFilter)
  {
    FilterIsSubsequence(members, (m: UserProfile) => MatchesSearch(m, query) && MatchesRole(m, roleFilter));
    Filter(members, (m: UserProfile) => MatchesSearch(m, query) && MatchesRole(m, roleFilter))
  }

  /** With an empty search and no role chosen, the whole team is listed. */
  lemma NoFilterShowsAll(members: seq<UserProfile>)
    ensures FilteredMembers(members, "", None) == members
  {
    forall i | 0 <= i < |members|
      ensures MatchesSearch(members[i], "") && MatchesRole(members[i], None)
    {
      ContainsEmpty(LowerStr(members[i].name));
    }
    FilterKeepsAll(members, (m: UserProfile) => MatchesSearch(m, "") && MatchesRole(m, None));
  }

  /** Choosing a role from the menu keeps exactly the members of that role that the search admits. */
  lemma RoleFilterSelectsRole(members: seq<UserProfile>, query: string, role: StaffRole)
    ensures forall m :: (m in FilteredMembers(members, query, Some(StaffRoleText(role)))
      <==> m in members && MatchesSearch(m, query) && m.role == role)
  {
    forall m: UserProfile
      ensures MatchesRole(m, Some(StaffRoleText(role))) <==> m.role == role
    {
      StaffRoleTextInjective(m.role, role);
    }
  }

  lemma StaffRoleTextInjective(a: StaffRole, b: StaffRole)
    ensures StaffRoleText(a) == StaffRoleText(b) <==> a == b
  {
  }

  /** Typing any part of a member's name, in any case, finds that member. */
  lemma NameFragmentMatches(m: UserProfile, query: string)
    requires Contains(m.name, query)
    ensures MatchesSearch(m, query)
  {
    ContainsLowered(m.name, query);
  }

  /** `getRoleBadgeColor`: supervisors blue, therapists green, anything else gray. */
  function RoleBadgeColor(role: string): (c: string)
    ensures role == "supervisor" <==> c == "blue"
    ensures role == "therapist" <==> c == "green"
    ensures role != "supervisor" && role != "therapist" <==> c == "gray"
  {
    if role == "supervisor" then "blue" else if role == "therapist" then "green" else "gray"
  }

  /** `getRoleLabel`: the two known roles get their Spanish names, any other role is shown as it is. */
  function RoleLabel(role: string): (l: string)
    ensures role == "supervisor" ==> l == "Supervisor"
    ensures role == "therapist" ==> l == "Terapeuta"
    ensures role != "supervisor" && role != "therapist" ==> l == role
  {
    if role == "supervisor" then "Supervisor" else if role == "therapist" then "Terapeuta" else role
  }

  /** Every staff role gets its own label. */
  lemma RoleLabelsDistinct(a: StaffRole, b: StaffRole)
    requires a != b
    ensures RoleLabel(StaffRoleText(a)) != RoleLabel(StaffRoleText(b))
  {
  }

  /** `handleSave`: an edit goes to the page under the selected member's id; with no one selected nothing is sent. */
  function SaveTarget<V>(selected: Option<UserProfile>, values: V): (r: Option<(string, V)>)
    ensures r.Some? <==> selected.Some?
    ensures r.Some? ==> r.value == (selected.value.id, values)
  {
    if selected.Some? then Some((selected.value.id, values)) else None
  }
}
