/** The account and group endpoints of backend/app.py as one object whose
    fields are the `users`, `groups` and `group_members` tables and their
    auto-increment counters. Each request is one method: it runs its checks
    in the source's order, reports the first that fails and leaves the tables
    alone, or makes its inserts and deletes. */
module Backend {
  import opened Wrappers
  import opened Tables

  /** The refusals of the endpoints; `Status` gives the HTTP code. */
  datatype Rejection =
    | RegistrationFieldsMissing
    | EmailTaken
    | UserIdAndNameMissing
    | MaxMembersNotNumber
    | MaxMembersNotPositive
    | UserNotFound
    | TooManyGroups
    | NameTaken
    | NoInviteCode
    | UserIdAndCodeMissing
    | InvalidInvite
    | GroupFull
    | AlreadyMember
    | UserIdMissing
    | NotMember
    | MembersOnly
    | AdminWithMembers
    | GroupNotFound

  function Status(e: Rejection): (code: int)
    ensures code in {400, 403, 404, 409, 500}
  {
    match e
    case RegistrationFieldsMissing => 400
    case EmailTaken => 409
    case UserIdAndNameMissing => 400
    case MaxMembersNotNumber => 400
    case MaxMembersNotPositive => 400
    case UserNotFound => 404
    case TooManyGroups => 400
    case NameTaken => 409
    case NoInviteCode => 500
    case UserIdAndCodeMissing => 400
    case InvalidInvite => 404
    case GroupFull => 400
    case AlreadyMember => 409
    case UserIdMissing => 400
    case NotMember => 404
    case MembersOnly => 403
    case AdminWithMembers => 400
    case GroupNotFound => 404
  }

  /** `max_members` in the request body: left out, an integer after `int()`,
      or a value `int()` refuses. */
  datatype MaxMembersInput = Omitted | Given(n: int) | NotNumber

  const DefaultMaxMembers := 10
  const InviteAttempts := 5
  const InviteCodeLength := 20

  /** What `leave_group` did. */
  datatype LeaveOutcome = GroupDeleted | LeftGroup

  /** The group as `get_group_details` shows it to one member. */
  datatype GroupView = GroupView(id: int, name: string, description: string, createdBy: int,
                                 inviteCode: Option<string>, maxMembers: int, memberCount: nat,
                                 userRole: Role)

  /** The `user_id` query argument: missing, the empty string, or text the
      database reads as the id `id` when it compares it with `user_id`. */
  datatype QueryArg = ArgMissing | ArgEmpty | ArgId(id: int)

  /** A `user_id` from a JSON body counts only when it is truthy: present and
      not 0. */
  predicate Present(userId: Option<int>)
    ensures Present(userId) ==> userId != None && userId != Some(0)
    ensures userId != None && userId != Some(0) ==> Present(userId)
  {
    userId.Some? && userId.value != 0
  }

  /** `secrets.token_urlsafe(length)[:20]`. */
  function TruncateCode(draw: string): (code: string)
    ensures |code| <= InviteCodeLength && |code| <= |draw| && code == draw[..|code|]
    ensures |draw| <= InviteCodeLength ==> code == draw
  {
    if |draw| <= InviteCodeLength then draw else draw[..InviteCodeLength]
  }

  /** The codes `generate_invite_code` tries: the first five draws, truncated. */
  function Candidates(draws: seq<string>): seq<string>
  {
    FirstCandidates(draws, InviteAttempts)
  }

  /** The first `n` draws, truncated. */
  function FirstCandidates(draws: seq<string>, n: nat): (cs: seq<string>)
    ensures |cs| == if |draws| < n then |draws| else n
    ensures forall i :: 0 <= i < |cs| ==> cs[i] == TruncateCode(draws[i])
  {
    if draws == [] || n == 0 then [] else [TruncateCode(draws[0])] + FirstCandidates(draws[1..], n - 1)
  }

  /** The first candidate not in use, if any. */
  function FirstUnused(candidates: seq<string>, used: set<string>): (code: Option<string>)
    ensures code.Some? ==> code.value in candidates && code.value !in used
  {
    if candidates == [] then None
    else if candidates[0] !in used then Some(candidates[0])
    else FirstUnused(candidates[1..], used)
  }

  /** The code found is an unused candidate and every earlier candidate was in
      use; no code is found exactly when every candidate is in use. */
  lemma {:induction false} FirstUnusedSpec(candidates: seq<string>, used: set<string>)
    ensures FirstUnused(candidates, used).None? <==> forall i :: 0 <= i < |candidates| ==> candidates[i] in used
    ensures FirstUnused(candidates, used).Some? ==>
      exists i :: 0 <= i < |candidates| && candidates[i] == FirstUnused(candidates, used).value
                  && candidates[i] !in used && forall j :: 0 <= j < i ==> candidates[j] in used
    decreases |candidates|
  {
    if candidates != [] {
      FirstUnusedSpec(candidates[1..], used);
      if candidates[0] in used {
        if FirstUnused(candidates, used).Some? {
          var i :| 0 <= i < |candidates[1..]| && candidates[1..][i] == FirstUnused(candidates, used).value
                   && candidates[1..][i] !in used && forall j :: 0 <= j < i ==> candidates[1..][j] in used;
          assert candidates[i + 1] == candidates[1..][i];
          forall j | 0 <= j < i + 1 ensures candidates[j] in used {
            if j > 0 { assert candidates[j] == candidates[1..][j - 1]; }
          }
        }
        assert (forall i :: 0 <= i < |candidates| ==> candidates[i] in used)
           <==> (forall i :: 0 <= i < |candidates[1..]| ==> candidates[1..][i] in used) by {
          forall i | 0 < i < |candidates| ensures candidates[i] == candidates[1..][i - 1] { }
        }
      }
    }
  }

  /** `if not invite_code`: a code was found and it is not empty. */
  predicate UsableCode(code: Option<string>)
  {
    code.Some? && code.value != ""
  }

  class Store {
    var users: map<int, User>
    var nextUserId: int
    var groups: map<int, Group>
    var members: seq<MemberRow>
    var nextGroupId: int

    /** The tables' integrity rules, ids below their counters, and no email
        registered twice. */
    ghost predicate Valid()
      reads this
    {
      TablesValid(users.Keys, groups, members)
      && 1 <= nextUserId && (forall id :: id in users ==> 1 <= id < nextUserId)
      && 1 <= nextGroupId && (forall id :: id in groups ==> 1 <= id < nextGroupId)
      && (forall a, b :: a in users && b in users && a != b ==> users[a].email != users[b].email)
    }

    /** Empty tables. */
    constructor ()
      ensures Valid()
      ensures users == map[] && groups == map[] && members == []
      ensures nextUserId == 1 && nextGroupId == 1
    {
      users := map[];
      nextUserId := 1;
      groups := map[];
      members := [];
      nextGroupId := 1;
    }

    predicate EmailUsed(email: string)
      reads this
    {
      exists id :: id in users && users[id].email == email
    }

    predicate NameUsed(name: string)
      reads this
    {
      exists id :: id in groups && groups[id].name == name
    }

    function InviteCodes(): set<string>
      reads this
    {
      set id | id in groups :: groups[id].inviteCode
    }

    /** The active group with this invite code. */
    predicate HasInvite(id: int, code: string)
      reads this
    {
      id in groups && groups[id].inviteCode == code && groups[id].isActive
    }

    /** `register`, given the hash of the password. Registering needs a name,
        an email and a password, and an email nobody registered. */
    method Register(name: string, email: string, password: string, passwordHash: string)
      returns (r: Result<int, Rejection>)
      requires Valid()
      modifies this
      ensures Valid()
      ensures r == Err(RegistrationFieldsMissing) <==> name == "" || email == "" || password == ""
      ensures r == Err(EmailTaken) <==> name != "" && email != "" && password != "" && old(EmailUsed(email))
      ensures r.Ok? <==> name != "" && email != "" && password != "" && !old(EmailUsed(email))
      ensures r.Err? ==> users == old(users) && nextUserId == old(nextUserId)
      ensures r.Ok? ==> r.value == old(nextUserId) && r.value !in old(users)
                        && users == old(users)[r.value := User(name, email, passwordHash)]
                        && nextUserId == old(nextUserId) + 1
      ensures groups == old(groups) && members == old(members) && nextGroupId == old(nextGroupId)
    {
      if name == "" || email == "" || password == "" {
        return Err(RegistrationFieldsMissing);
      }
      if EmailUsed(email) {
        return Err(EmailTaken);
      }
      r := Ok(nextUserId);
      MoreUsersKeepValid(users.Keys, users.Keys + {nextUserId}, groups, members);
      users := users[nextUserId := User(name, email, passwordHash)];
      nextUserId := nextUserId + 1;
    }

    /** `generate_invite_code`: the draws stand for `secrets.token_urlsafe`;
        the first of at most five whose truncation no group uses. */
    method GenerateInviteCode(draws: seq<string>) returns (code: Option<string>)
      ensures code == FirstUnused(Candidates(draws), InviteCodes())
      ensures code.Some? ==> code.value !in InviteCodes() && |code.value| <= InviteCodeLength
    {
      var cs := Candidates(draws);
      var used := InviteCodes();
      var i := 0;
      while i < |draws| && i < InviteAttempts
        invariant 0 <= i <= |cs|
        invariant FirstUnused(cs, used) == FirstUnused(cs[i..], used)
      {
        var candidate := TruncateCode(draws[i]);
        assert cs[i..][0] == candidate;
        if candidate !in used {
          return Some(candidate);
        }
        assert cs[i..][1..] == cs[i + 1..];
        i := i + 1;
      }
      code := None;
    }

    /** `create_group`. The checks run in this order: user id and name given,
        `max_members` a number, positive, the user exists, is in fewer than two
        groups, the name is free, an invite code was found. Then the group is
        added under the next id and its creator becomes its only member, as
        admin. */
    method CreateGroup(userId: Option<int>, name: string, description: string,
                       maxMembers: MaxMembersInput, draws: seq<string>)
      returns (r: Result<int, Rejection>)
      requires Valid()
      modifies this
      ensures Valid()
      ensures r == Err(UserIdAndNameMissing) <==> !Present(userId) || name == ""
      ensures r == Err(MaxMembersNotNumber) <==> Present(userId) && name != "" && maxMembers.NotNumber?
      ensures r == Err(MaxMembersNotPositive) <==>
        Present(userId) && name != "" && maxMembers.Given? && maxMembers.n <= 0
      ensures r == Err(UserNotFound) <==>
        Present(userId) && name != "" && !maxMembers.NotNumber? && !(maxMembers.Given? && maxMembers.n <= 0)
        && userId.value !in old(users)
      ensures r == Err(TooManyGroups) <==>
        Present(userId) && name != "" && !maxMembers.NotNumber? && !(maxMembers.Given? && maxMembers.n <= 0)
        && userId.value in old(users) && Count(old(members), ByUser(userId.value)) >= MaxGroupsPerUser
      ensures r == Err(NameTaken) <==>
        Present(userId) && name != "" && !maxMembers.NotNumber? && !(maxMembers.Given? && maxMembers.n <= 0)
        && userId.value in old(users) && Count(old(members), ByUser(userId.value)) < MaxGroupsPerUser
        && old(NameUsed(name))
      ensures r == Err(NoInviteCode) <==>
        Present(userId) && name != "" && !maxMembers.NotNumber? && !(maxMembers.Given? && maxMembers.n <= 0)
        && userId.value in old(users) && Count(old(members), ByUser(userId.value)) < MaxGroupsPerUser
        && !old(NameUsed(name)) && !UsableCode(FirstUnused(Candidates(draws), old(InviteCodes())))
      ensures r.Ok? <==>
        Present(userId) && name != "" && !maxMembers.NotNumber? && !(maxMembers.Given? && maxMembers.n <= 0)
        && userId.value in old(users) && Count(old(members), ByUser(userId.value)) < MaxGroupsPerUser
        && !old(NameUsed(name)) && UsableCode(FirstUnused(Candidates(draws), old(InviteCodes())))
      ensures r.Err? ==> groups == old(groups) && members == old(members) && nextGroupId == old(nextGroupId)
      ensures r.Ok? ==>
        var limit := if maxMembers.Given? then maxMembers.n else DefaultMaxMembers;
        var code := FirstUnused(Candidates(draws), old(InviteCodes()));
        UsableCode(code) && r.value == old(nextGroupId) && r.value !in old(groups)
        && groups == old(groups)[r.value := Group(name, description, userId.value, code.value, limit, true)]
        && members == old(members) + [MemberRow(r.value, userId.value, Admin)]
        && nextGroupId == old(nextGroupId) + 1
      ensures users == old(users) && nextUserId == old(nextUserId)
    {
      if !Present(userId) || name == "" {
        return Err(UserIdAndNameMissing);
      }
      var limit := DefaultMaxMembers;
      match maxMembers {
        case NotNumber => return Err(MaxMembersNotNumber);
        case Given(n) => limit := n;
        case Omitted =>
      }
      if limit <= 0 {
        return Err(MaxMembersNotPositive);
      }
      var u := userId.value;
      if u !in users {
        return Err(UserNotFound);
      }
      if Count(members, ByUser(u)) >= MaxGroupsPerUser {
        return Err(TooManyGroups);
      }
      if NameUsed(name) {
        return Err(NameTaken);
      }
      var code := GenerateInviteCode(draws);
      if !UsableCode(code) {
        return Err(NoInviteCode);
      }
      var id := nextGroupId;
      var group := Group(name, description, u, code.value, limit, true);
      CreateKeepsValid(users.Keys, groups, members, id, group);
      groups := groups[id := group];
      members := members + [MemberRow(id, u, Admin)];
      nextGroupId := nextGroupId + 1;
      r := Ok(id);
    }

    /** `join_group`. The checks run in this order: user id and code given,
        the user exists, is in fewer than two groups, an active group has the
        code, it is not full, the user is not in it yet. Then the user is added
        as a plain member. */
    method JoinGroup(userId: Option<int>, inviteCode: string) returns (r: Result<int, Rejection>)
      requires Valid()
      modifies this
      ensures Valid()
      ensures r == Err(UserIdAndCodeMissing) <==> !Present(userId) || inviteCode == ""
      ensures r == Err(UserNotFound) <==> Present(userId) && inviteCode != "" && userId.value !in old(users)
      ensures r == Err(TooManyGroups) <==>
        Present(userId) && inviteCode != "" && userId.value in old(users)
        && Count(old(members), ByUser(userId.value)) >= MaxGroupsPerUser
      ensures r == Err(InvalidInvite) <==>
        Present(userId) && inviteCode != "" && userId.value in old(users)
        && Count(old(members), ByUser(userId.value)) < MaxGroupsPerUser
        && !exists id :: old(HasInvite(id, inviteCode))
      ensures r == Err(GroupFull) <==>
        Present(userId) && inviteCode != "" && userId.value in old(users)
        && Count(old(members), ByUser(userId.value)) < MaxGroupsPerUser
        && exists id :: old(HasInvite(id, inviteCode))
                        && Count(old(members), ByGroup(id)) >= old(groups)[id].maxMembers
      ensures r == Err(AlreadyMember) <==>
        Present(userId) && inviteCode != "" && userId.value in old(users)
        && Count(old(members), ByUser(userId.value)) < MaxGroupsPerUser
        && exists id :: old(HasInvite(id, inviteCode))
                        && Count(old(members), ByGroup(id)) < old(groups)[id].maxMembers
                        && Count(old(members), ByPair(id, userId.value)) > 0
      ensures r.Ok? <==>
        Present(userId) && inviteCode != "" && userId.value in old(users)
        && Count(old(members), ByUser(userId.value)) < MaxGroupsPerUser
        && exists id :: old(HasInvite(id, inviteCode))
                        && Count(old(members), ByGroup(id)) < old(groups)[id].maxMembers
                        && Count(old(members), ByPair(id, userId.value)) == 0
      ensures r.Err? ==> members == old(members)
      ensures r.Ok? ==> old(HasInvite(r.value, inviteCode))
                        && members == old(members) + [MemberRow(r.value, userId.value, Member)]
      ensures users == old(users) && groups == old(groups)
      ensures nextUserId == old(nextUserId) && nextGroupId == old(nextGroupId)
    {
      if !Present(userId) || inviteCode == "" {
        return Err(UserIdAndCodeMissing);
      }
      var u := userId.value;
      if u !in users {
        return Err(UserNotFound);
      }
      if Count(members, ByUser(u)) >= MaxGroupsPerUser {
        return Err(TooManyGroups);
      }
      if !exists id | id in groups :: HasInvite(id, inviteCode) {
        return Err(InvalidInvite);
      }
      var id :| id in groups && HasInvite(id, inviteCode);
      assert forall other :: HasInvite(other, inviteCode) ==> other == id;
      if Count(members, ByGroup(id)) >= groups[id].maxMembers {
        return Err(GroupFull);
      }
      if Count(members, ByPair(id, u)) > 0 {
        return Err(AlreadyMember);
      }
      JoinKeepsValid(users.Keys, groups, members, id, u);
      members := members + [MemberRow(id, u, Member)];
      r := Ok(id);
    }

    /** `leave_group`. A user who is not in the group is refused; the admin
        may leave only as the last member, and then the group goes, with its
        member rows (the schema's cascade); anyone else loses just their own
        row. */
    method LeaveGroup(groupId: int, userId: Option<int>) returns (r: Result<LeaveOutcome, Rejection>)
      requires Valid()
      modifies this
      ensures Valid()
      ensures r == Err(UserIdMissing) <==> !Present(userId)
      ensures r == Err(NotMember) <==> Present(userId) && old(RoleOf(members, groupId, userId.value)).None?
      ensures r == Err(AdminWithMembers) <==>
        Present(userId) && old(RoleOf(members, groupId, userId.value)) == Some(Admin)
        && Count(old(members), ByGroup(groupId)) > 1
      ensures r == Ok(GroupDeleted) <==>
        Present(userId) && old(RoleOf(members, groupId, userId.value)) == Some(Admin)
        && Count(old(members), ByGroup(groupId)) <= 1
      ensures r == Ok(LeftGroup) <==> Present(userId) && old(RoleOf(members, groupId, userId.value)) == Some(Member)
      ensures r.Err? ==> groups == old(groups) && members == old(members)
      ensures r == Ok(GroupDeleted) ==>
        groups == old(groups) - {groupId} && members == Drop(old(members), ByGroup(groupId))
      ensures r == Ok(LeftGroup) ==>
        groups == old(groups) && members == Drop(old(members), ByPair(groupId, userId.value))
      ensures users == old(users) && nextUserId == old(nextUserId) && nextGroupId == old(nextGroupId)
    {
      if !Present(userId) {
        return Err(UserIdMissing);
      }
      var u := userId.value;
      var role := RoleOf(members, groupId, u);
      if role.None? {
        return Err(NotMember);
      }
      if role.value == Admin {
        if Count(members, ByGroup(groupId)) > 1 {
          return Err(AdminWithMembers);
        }
        DeleteGroupKeepsValid(users.Keys, groups, members, groupId);
        groups := groups - {groupId};
        members := Drop(members, ByGroup(groupId));
        return Ok(GroupDeleted);
      }
      LeaveKeepsValid(users.Keys, groups, members, groupId, u);
      members := Drop(members, ByPair(groupId, u));
      r := Ok(LeftGroup);
    }

    /** `get_group_details`. `userId` is the query argument: missing or empty
        is refused. Non-members are refused before the group is looked up; the
        invite code is shown to the admin only. */
    method GetGroupDetails(groupId: int, userId: QueryArg) returns (r: Result<GroupView, Rejection>)
      ensures r == Err(UserIdMissing) <==> !userId.ArgId?
      ensures r == Err(MembersOnly) <==> userId.ArgId? && RoleOf(members, groupId, userId.id).None?
      ensures r == Err(GroupNotFound) <==>
        userId.ArgId? && RoleOf(members, groupId, userId.id).Some? && groupId !in groups
      ensures r.Ok? <==> userId.ArgId? && RoleOf(members, groupId, userId.id).Some? && groupId in groups
      ensures r.Ok? ==>
        RoleOf(members, groupId, userId.id) == Some(r.value.userRole)
        && r.value.id == groupId && r.value.name == groups[groupId].name
        && r.value.description == groups[groupId].description
        && r.value.createdBy == groups[groupId].createdBy
        && r.value.maxMembers == groups[groupId].maxMembers
        && r.value.memberCount == Count(members, ByGroup(groupId))
        && (r.value.inviteCode.Some? <==> r.value.userRole == Admin)
        && (r.value.inviteCode.Some? ==> r.value.inviteCode.value == groups[groupId].inviteCode)
    {
      if !userId.ArgId? {
        return Err(UserIdMissing);
      }
      var role := RoleOf(members, groupId, userId.id);
      if role.None? {
        return Err(MembersOnly);
      }
      if groupId !in groups {
        return Err(GroupNotFound);
      }
      var g := groups[groupId];
      var code := if role.value == Admin then Some(g.inviteCode) else None;
      r := Ok(GroupView(groupId, g.name, g.description, g.createdBy, code, g.maxMembers,
                        Count(members, ByGroup(groupId)), role.value));
    }

    /** `list_group_members`. `userId` is the query argument. Only a member may
        list; the listing is every member row of the group that has a user
        row, in joined order. */
    method ListGroupMembers(groupId: int, userId: QueryArg) returns (r: Result<seq<MemberView>, Rejection>)
      ensures r == Err(UserIdMissing) <==> !userId.ArgId?
      ensures r == Err(MembersOnly) <==> userId.ArgId? && Count(members, ByPair(groupId, userId.id)) == 0
      ensures r.Ok? <==> userId.ArgId? && Count(members, ByPair(groupId, userId.id)) > 0
      ensures r.Ok? ==> r.value == MembersOf(members, groupId, users)
      ensures r.Ok? ==> forall v :: v in r.value <==>
        MemberRow(groupId, v.userId, v.role) in members && v.userId in users && v.name == users[v.userId].name
    {
      if !userId.ArgId? {
        return Err(UserIdMissing);
      }
      if Count(members, ByPair(groupId, userId.id)) == 0 {
        return Err(MembersOnly);
      }
      var listing := MembersOf(members, groupId, users);
      forall v ensures v in listing <==>
        MemberRow(groupId, v.userId, v.role) in members && v.userId in users && v.name == users[v.userId].name
      {
        MembersOfExact(members, groupId, users, v);
      }
      r := Ok(listing);
    }
  }

  /** In a valid store the listing has exactly one entry per member row. */
  lemma ListingCountsMembers(s: Store, groupId: int)
    requires s.Valid()
    ensures |MembersOf(s.members, groupId, s.users)| == Count(s.members, ByGroup(groupId))
  {
    MembersOfCount(s.members, groupId, s.users);
  }
}
