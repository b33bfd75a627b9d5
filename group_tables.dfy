/** The `users`, `groups` and `group_members` tables of backend/app.py as
    values, the queries the group endpoints run on them, and the integrity
    rules the endpoints keep together. Rows of `group_members` are kept in
    insertion order, which is the `joined_at` order. */
module Tables {
  import opened Wrappers

  datatype User = User(name: string, email: string, passwordHash: string)

  datatype Group = Group(name: string, description: string, createdBy: int, inviteCode: string,
                         maxMembers: int, isActive: bool)

  datatype Role = Admin | Member

  datatype MemberRow = MemberRow(groupId: int, userId: int, role: Role)

  /** One row of the member listing: the member joined with their user row. */
  datatype MemberView = MemberView(userId: int, name: string, role: Role)

  /** The `WHERE` clauses the endpoints put on `group_members`. */
  datatype Selector = ByUser(user: int) | ByGroup(group: int) | ByPair(pairGroup: int, pairUser: int)

  predicate Matches(s: Selector, r: MemberRow)
  {
    match s
    case ByUser(u) => r.userId == u
    case ByGroup(g) => r.groupId == g
    case ByPair(g, u) => r.groupId == g && r.userId == u
  }

  /** `SELECT COUNT(*) FROM group_members WHERE ...`. With `ByUser` this is
      `get_user_group_count`. */
  function Count(rows: seq<MemberRow>, s: Selector): (n: nat)
    ensures n <= |rows|
  {
    if rows == [] then 0 else (if Matches(s, rows[0]) then 1 else 0) + Count(rows[1..], s)
  }

  /** `DELETE FROM group_members WHERE ...`: the rows that do not match, in order. */
  function Drop(rows: seq<MemberRow>, s: Selector): (kept: seq<MemberRow>)
    ensures |kept| <= |rows|
    ensures forall x :: x in kept <==> x in rows && !Matches(s, x)
  {
    if rows == [] then []
    else (if Matches(s, rows[0]) then [] else [rows[0]]) + Drop(rows[1..], s)
  }

  /** `SELECT role FROM group_members WHERE group_id = g AND user_id = u`,
      first row only. */
  function RoleOf(rows: seq<MemberRow>, g: int, u: int): (role: Option<Role>)
    ensures role.Some? ==> MemberRow(g, u, role.value) in rows
  {
    if rows == [] then None
    else if rows[0].groupId == g && rows[0].userId == u then Some(rows[0].role)
    else RoleOf(rows[1..], g, u)
  }

  /** The member listing of group `g`: its rows in joined order, each joined
      with its user; a row without a user row drops out of the inner join. */
  function MembersOf(rows: seq<MemberRow>, g: int, users: map<int, User>): (listing: seq<MemberView>)
    ensures |listing| <= |rows|
    ensures forall i :: 0 <= i < |listing| ==> listing[i].userId in users
  {
    if rows == [] then []
    else
      var x := rows[0];
      (if x.groupId == g && x.userId in users then [MemberView(x.userId, users[x.userId].name, x.role)] else [])
      + MembersOf(rows[1..], g, users)
  }

  // ---------------------------------------------------------------------------
  // Integrity rules

  const MaxGroupsPerUser := 2

  /** Every row names an existing group and user, and its role is admin
      exactly when the user created the group. */
  ghost predicate RowsReferToTables(userIds: set<int>, groups: map<int, Group>, rows: seq<MemberRow>)
  {
    forall x :: x in rows ==>
      x.groupId in groups && x.userId in userIds
      && (x.role == Admin <==> x.userId == groups[x.groupId].createdBy)
  }

  /** A user belongs to at most two groups. */
  ghost predicate WithinGroupLimit(rows: seq<MemberRow>)
  {
    forall u :: Count(rows, ByUser(u)) <= MaxGroupsPerUser
  }

  /** No group has more members than its `max_members`. */
  ghost predicate WithinCapacity(groups: map<int, Group>, rows: seq<MemberRow>)
  {
    forall g :: g in groups ==> Count(rows, ByGroup(g)) <= groups[g].maxMembers
  }

  /** A user is in a group at most once. */
  ghost predicate NoDuplicateMembership(rows: seq<MemberRow>)
  {
    forall g, u :: Count(rows, ByPair(g, u)) <= 1
  }

  /** Every group still holds its creator, as admin. */
  ghost predicate CreatorsAreAdmins(groups: map<int, Group>, rows: seq<MemberRow>)
  {
    forall g :: g in groups ==> RoleOf(rows, g, groups[g].createdBy) == Some(Admin)
  }

  /** No two groups share an invite code, and no two share a name. */
  ghost predicate DistinctGroups(groups: map<int, Group>)
  {
    forall g, h :: g in groups && h in groups && g != h ==>
      groups[g].inviteCode != groups[h].inviteCode && groups[g].name != groups[h].name
  }

  ghost predicate TablesValid(userIds: set<int>, groups: map<int, Group>, rows: seq<MemberRow>)
  {
    RowsReferToTables(userIds, groups, rows) && WithinGroupLimit(rows) && WithinCapacity(groups, rows)
    && NoDuplicateMembership(rows) && CreatorsAreAdmins(groups, rows) && DistinctGroups(groups)
  }

  // ---------------------------------------------------------------------------
  // Lemmas about the queries

  lemma {:induction false} CountAppend(a: seq<MemberRow>, b: seq<MemberRow>, s: Selector)
    ensures Count(a + b, s) == Count(a, s) + Count(b, s)
    decreases |a|
  {
    if a == [] {
      assert a + b == b;
    } else {
      assert (a + b)[0] == a[0];
      assert (a + b)[1..] == a[1..] + b;
      CountAppend(a[1..], b, s);
    }
  }

  /** A count is zero exactly when no row matches. */
  lemma {:induction false} CountZeroIff(rows: seq<MemberRow>, s: Selector)
    ensures Count(rows, s) == 0 <==> forall x :: x in rows ==> !Matches(s, x)
    decreases |rows|
  {
    if rows != [] {
      CountZeroIff(rows[1..], s);
      assert forall x :: x in rows <==> x == rows[0] || x in rows[1..];
    }
  }

  /** Deleting rows never raises a count, and leaves it alone when no deleted
      row is counted. */
  lemma {:induction false} CountDrop(rows: seq<MemberRow>, d: Selector, s: Selector)
    ensures Count(Drop(rows, d), s) <= Count(rows, s)
    ensures (forall x :: x in rows && Matches(s, x) ==> !Matches(d, x)) ==> Count(Drop(rows, d), s) == Count(rows, s)
    decreases |rows|
  {
    if rows != [] {
      CountDrop(rows[1..], d, s);
      var head := if Matches(d, rows[0]) then [] else [rows[0]];
      CountAppend(head, Drop(rows[1..], d), s);
      assert forall x :: x in rows[1..] ==> x in rows;
    }
  }

  /** A role is found exactly when the pair has a row, and it is that row's role. */
  lemma {:induction false} RoleOfFound(rows: seq<MemberRow>, g: int, u: int)
    ensures RoleOf(rows, g, u).Some? <==> Count(rows, ByPair(g, u)) > 0
    ensures RoleOf(rows, g, u).Some? ==> MemberRow(g, u, RoleOf(rows, g, u).value) in rows
    decreases |rows|
  {
    if rows != [] {
      RoleOfFound(rows[1..], g, u);
    }
  }

  /** Appending rows does not change a role already found. */
  lemma {:induction false} RoleOfAppend(a: seq<MemberRow>, b: seq<MemberRow>, g: int, u: int)
    ensures RoleOf(a + b, g, u) == if RoleOf(a, g, u).Some? then RoleOf(a, g, u) else RoleOf(b, g, u)
    decreases |a|
  {
    if a == [] {
      assert a + b == b;
    } else {
      assert (a + b)[0] == a[0];
      assert (a + b)[1..] == a[1..] + b;
      RoleOfAppend(a[1..], b, g, u);
    }
  }

  /** Deleting rows of other pairs does not change a pair's role. */
  lemma {:induction false} RoleOfDrop(rows: seq<MemberRow>, d: Selector, g: int, u: int)
    requires forall x :: x in rows && x.groupId == g && x.userId == u ==> !Matches(d, x)
    ensures RoleOf(Drop(rows, d), g, u) == RoleOf(rows, g, u)
    decreases |rows|
  {
    if rows != [] {
      assert forall x :: x in rows[1..] ==> x in rows;
      RoleOfDrop(rows[1..], d, g, u);
      var head := if Matches(d, rows[0]) then [] else [rows[0]];
      RoleOfAppend(head, Drop(rows[1..], d), g, u);
      if head != [] {
        assert head[1..] == [];
      }
    }
  }

  /** The listing holds exactly the group's members that have a user row,
      each with that user's name and the member's role. */
  lemma {:induction false} MembersOfExact(rows: seq<MemberRow>, g: int, users: map<int, User>, v: MemberView)
    ensures v in MembersOf(rows, g, users)
            <==> MemberRow(g, v.userId, v.role) in rows && v.userId in users && v.name == users[v.userId].name
    decreases |rows|
  {
    if rows != [] {
      MembersOfExact(rows[1..], g, users, v);
      assert forall x :: x in rows <==> x == rows[0] || x in rows[1..];
    }
  }

  /** When every member has a user row, the listing has one entry per member. */
  lemma {:induction false} MembersOfCount(rows: seq<MemberRow>, g: int, users: map<int, User>)
    requires forall x :: x in rows ==> x.userId in users
    ensures |MembersOf(rows, g, users)| == Count(rows, ByGroup(g))
    decreases |rows|
  {
    if rows != [] {
      assert forall x :: x in rows[1..] ==> x in rows;
      MembersOfCount(rows[1..], g, users);
    }
  }

  // ---------------------------------------------------------------------------
  // The integrity rules survive each change the endpoints make

  /** `register` only adds users. */
  lemma MoreUsersKeepValid(userIds: set<int>, more: set<int>, groups: map<int, Group>, rows: seq<MemberRow>)
    requires TablesValid(userIds, groups, rows) && userIds <= more
    ensures TablesValid(more, groups, rows)
  {
  }

  /** `create_group` adds a fresh group and its creator as admin. */
  lemma CreateKeepsValid(userIds: set<int>, groups: map<int, Group>, rows: seq<MemberRow>, g: int, group: Group)
    requires TablesValid(userIds, groups, rows)
    requires g !in groups && group.createdBy in userIds
    requires Count(rows, ByUser(group.createdBy)) < MaxGroupsPerUser && group.maxMembers > 0
    requires forall h :: h in groups ==> groups[h].inviteCode != group.inviteCode && groups[h].name != group.name
    ensures TablesValid(userIds, groups[g := group], rows + [MemberRow(g, group.createdBy, Admin)])
  {
    var u := group.createdBy;
    var row := MemberRow(g, u, Admin);
    var groups' := groups[g := group];
    var rows' := rows + [row];
    assert forall x :: x in rows' <==> x in rows || x == row;
    CountZeroIff(rows, ByGroup(g));
    CountZeroIff(rows, ByPair(g, u));
    forall v ensures Count(rows', ByUser(v)) <= MaxGroupsPerUser {
      CountAppend(rows, [row], ByUser(v));
    }
    forall h | h in groups' ensures Count(rows', ByGroup(h)) <= groups'[h].maxMembers {
      CountAppend(rows, [row], ByGroup(h));
    }
    forall h, v ensures Count(rows', ByPair(h, v)) <= 1 {
      CountAppend(rows, [row], ByPair(h, v));
    }
    forall h | h in groups' ensures RoleOf(rows', h, groups'[h].createdBy) == Some(Admin) {
      RoleOfAppend(rows, [row], h, groups'[h].createdBy);
      if h == g {
        RoleOfFound(rows, g, u);
        assert [row][1..] == [];
      }
    }
  }

  /** `join_group` adds a member row for a user who passed its checks. */
  lemma JoinKeepsValid(userIds: set<int>, groups: map<int, Group>, rows: seq<MemberRow>, g: int, u: int)
    requires TablesValid(userIds, groups, rows)
    requires g in groups && u in userIds
    requires Count(rows, ByUser(u)) < MaxGroupsPerUser
    requires Count(rows, ByGroup(g)) < groups[g].maxMembers
    requires Count(rows, ByPair(g, u)) == 0
    ensures TablesValid(userIds, groups, rows + [MemberRow(g, u, Member)])
  {
    var row := MemberRow(g, u, Member);
    var rows' := rows + [row];
    assert u != groups[g].createdBy by {
      RoleOfFound(rows, g, groups[g].createdBy);
    }
    assert forall x :: x in rows' <==> x in rows || x == row;
    forall v ensures Count(rows', ByUser(v)) <= MaxGroupsPerUser {
      CountAppend(rows, [row], ByUser(v));
    }
    forall h | h in groups ensures Count(rows', ByGroup(h)) <= groups[h].maxMembers {
      CountAppend(rows, [row], ByGroup(h));
    }
    forall h, v ensures Count(rows', ByPair(h, v)) <= 1 {
      CountAppend(rows, [row], ByPair(h, v));
    }
    forall h | h in groups ensures RoleOf(rows', h, groups[h].createdBy) == Some(Admin) {
      RoleOfAppend(rows, [row], h, groups[h].createdBy);
    }
  }

  /** `leave_group` for an ordinary member deletes that member's row. */
  lemma LeaveKeepsValid(userIds: set<int>, groups: map<int, Group>, rows: seq<MemberRow>, g: int, u: int)
    requires TablesValid(userIds, groups, rows)
    requires RoleOf(rows, g, u) == Some(Member)
    ensures TablesValid(userIds, groups, Drop(rows, ByPair(g, u)))
  {
    var rows' := Drop(rows, ByPair(g, u));
    RoleOfFound(rows, g, u);
    assert u != groups[g].createdBy;
    forall v ensures Count(rows', ByUser(v)) <= MaxGroupsPerUser {
      CountDrop(rows, ByPair(g, u), ByUser(v));
    }
    forall h | h in groups ensures Count(rows', ByGroup(h)) <= groups[h].maxMembers {
      CountDrop(rows, ByPair(g, u), ByGroup(h));
    }
    forall h, v ensures Count(rows', ByPair(h, v)) <= 1 {
      CountDrop(rows, ByPair(g, u), ByPair(h, v));
    }
    forall h | h in groups ensures RoleOf(rows', h, groups[h].createdBy) == Some(Admin) {
      RoleOfDrop(rows, ByPair(g, u), h, groups[h].createdBy);
    }
  }

  /** `leave_group` for the sole admin deletes the group and, through the
      foreign key, its member rows. */
  lemma DeleteGroupKeepsValid(userIds: set<int>, groups: map<int, Group>, rows: seq<MemberRow>, g: int)
    requires TablesValid(userIds, groups, rows)
    ensures TablesValid(userIds, groups - {g}, Drop(rows, ByGroup(g)))
  {
    var groups' := groups - {g};
    var rows' := Drop(rows, ByGroup(g));
    forall v ensures Count(rows', ByUser(v)) <= MaxGroupsPerUser {
      CountDrop(rows, ByGroup(g), ByUser(v));
    }
    forall h | h in groups' ensures Count(rows', ByGroup(h)) <= groups'[h].maxMembers {
      CountDrop(rows, ByGroup(g), ByGroup(h));
    }
    forall h, v ensures Count(rows', ByPair(h, v)) <= 1 {
      CountDrop(rows, ByGroup(g), ByPair(h, v));
    }
    forall h | h in groups' ensures RoleOf(rows', h, groups'[h].createdBy) == Some(Admin) {
      RoleOfDrop(rows, ByGroup(g), h, groups'[h].createdBy);
    }
  }
}
