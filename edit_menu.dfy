/**
 * The per-user edit menu: a list of roles and a list of mapper levels,
 * each option check-marked when it is the user's current one.  Clicking a
 * role sends a request to the user's set-role action; the level options
 * have no click handler.
 */
module EditMenu {
  import opened Filters
  import opened Listing

  const RoleOptions: seq<string> := ["MAPPER", "VALIDATOR", "PROJECT_MANAGER", "ADMIN"]

  const LevelOptions: seq<string> := ["BEGINNER", "INTERMEDIATE", "ADVANCED"]

  /** Which options carry a check mark, in menu order. */
  function CheckMarks(options: seq<string>, current: string): (marks: seq<bool>)
    ensures |marks| == |options|
  {
    if options == [] then [] else [options[0] == current] + CheckMarks(options[1..], current)
  }

  function CountMarks(marks: seq<bool>): (n: nat)
    ensures n <= |marks|
  {
    if marks == [] then 0 else (if marks[0] then 1 else 0) + CountMarks(marks[1..])
  }

  predicate Distinct(options: seq<string>) {
    forall i, j :: 0 <= i < j < |options| ==> options[i] != options[j]
  }

  /** An option is check-marked exactly when it equals the current value. */
  lemma {:induction false} CheckMarkAt(options: seq<string>, current: string, i: nat)
    requires i < |options|
    ensures CheckMarks(options, current)[i] <==> options[i] == current
  {
    if i > 0 {
      CheckMarkAt(options[1..], current, i - 1);
    }
  }

  /** Among distinct options, one check mark if the current value is listed, none otherwise. */
  lemma {:induction false} CheckMarkCount(options: seq<string>, current: string)
    requires Distinct(options)
    ensures CountMarks(CheckMarks(options, current)) == if current in options then 1 else 0
  {
    if options != [] {
      assert Distinct(options[1..]);
      CheckMarkCount(options[1..], current);
      assert current in options <==> options[0] == current || current in options[1..];
    }
  }

  /** The menu of a user shows at most one role and at most one level check mark. */
  lemma MenuCheckMarks(user: UserSummary)
    ensures CountMarks(CheckMarks(RoleOptions, user.role)) == if user.role in RoleOptions then 1 else 0
    ensures CountMarks(CheckMarks(LevelOptions, user.mappingLevel)) == if user.mappingLevel in LevelOptions then 1 else 0
  {
    CheckMarkCount(RoleOptions, user.role);
    CheckMarkCount(LevelOptions, user.mappingLevel);
  }

  /** `users/${username}/actions/set-role/`: the chosen role is not part of it. */
  function SetRoleUrl(username: string, role: string): (url: string)
    ensures |url| == |username| + 24
  {
    "users/" + username + "/actions/set-role/"
  }

  /** Two set-role requests go to the same URL exactly when they are for the same user. */
  lemma SetRoleUrlDependsOnlyOnUser(u1: string, r1: string, u2: string, r2: string)
    ensures SetRoleUrl(u1, r1) == SetRoleUrl(u2, r2) <==> u1 == u2
  {
    var s1, s2 := SetRoleUrl(u1, r1), SetRoleUrl(u2, r2);
    if s1 == s2 {
      assert |u1| == |u2|;
      assert u1 == s1[6..6 + |u1|];
      assert u2 == s2[6..6 + |u2|];
    }
  }

  datatype MenuItem = RoleItem(role: string) | LevelItem(level: string)

  /** A request sent by the menu: the URL and the token passed with it. */
  datatype Mutation = Mutation(url: string, token: Token)

  /**
   * Clicking a menu item: a role item calls `updateRole(user.username, r)`,
   * which fetches the set-role URL without the token; a level item does nothing.
   */
  function Click(item: MenuItem, user: UserSummary, token: Token): (m: Option<Mutation>)
    ensures m.Some? <==> item.RoleItem?
  {
    match item
    case RoleItem(r) => Some(Mutation(SetRoleUrl(user.username, r), None))
    case LevelItem(_) => None
  }

  /**
   * A click sends a request exactly when it is on a role; the request goes to
   * the user's set-role URL, carries no token, and is the same whichever
   * role was chosen and whatever token the menu holds.
   */
  lemma ClickRequests(item: MenuItem, user: UserSummary, token: Token, other: MenuItem, token': Token)
    ensures Click(item, user, token).Some? <==> item.RoleItem?
    ensures Click(item, user, token).Some? ==>
      Click(item, user, token).value.url == SetRoleUrl(user.username, item.role)
      && Click(item, user, token).value.token == None
    ensures item.RoleItem? && other.RoleItem? ==> Click(item, user, token) == Click(other, user, token')
  {
  }
}
