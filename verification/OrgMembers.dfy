/**
 Members and owners of an organization (onadata/apps/api/tools.py, onadata/apps/api/models/organization_profile.py and
 onadata/libs/serializers/organization_member_serializer.py).
 */
module OrgMembers {
  import opened Common
  import opened Permissions

  /** The organization, its own user account, and the accounts that are organizations. */
  datatype Config = Config(id: nat, username: string, orgUser: nat, orgAccounts: set<nat>)

  datatype State = State(members: set<nat>, owners: set<nat>, grants: set<Grant>)

  datatype Team = Members | Owners

  function Profile(c: Config): Obj {
    Obj(AnOrganization, c.id)
  }

  /** organization.userprofile_ptr */
  function UserProfile(c: Config): Obj {
    Obj(AUserProfile, c.id)
  }

  function TeamObj(c: Config, t: Team): Obj {
    Obj(ATeam, if t.Members? then 2 * c.id else 2 * c.id + 1)
  }

  function TeamName(c: Config, t: Team): string {
    c.username + "#" + if t.Members? then "members" else OWNERS
  }

  const OWNERS := "Owners"

  /** s.find(sub) */
  function Find(s: string, sub: string): int
    decreases |s|
  {
    if sub <= s then 0
    else if s == "" then -1
    else
      var i := Find(s[1..], sub);
      if i < 0 then -1 else i + 1
  }

  /** How the code tells the owners' team: by its name. */
  predicate LooksLikeOwners(c: Config, t: Team) {
    Find(TeamName(c, t), OWNERS) > 0
  }

  const TEAM: seq<Perm> := [AddTeam, ChangeTeam, DeleteTeam, ViewTeam]

  function AllTeamGrants(c: Config, u: nat): set<Grant> {
    set p | p in TEAM :: Grant(u, TeamObj(c, Owners), p)
  }

  function AllMemberGrants(c: Config, u: nat): set<Grant> {
    set p | p in TEAM :: Grant(u, TeamObj(c, Members), p)
  }

  function BothTeams(c: Config, u: nat): set<Grant> {
    AllTeamGrants(c, u) + AllMemberGrants(c, u)
  }

  // ---------------------------------------------------------------- what the operations do

  function Joined(c: Config, s: State, t: Team, u: nat): State {
    s.(members := if t.Members? then s.members + {u} else s.members,
       owners := if t.Owners? then s.owners + {u} else s.owners,
       grants := s.grants + {Grant(u, TeamObj(c, t), ViewTeam)} + if LooksLikeOwners(c, t) then BothTeams(c, u) else {})
  }

  function Left(c: Config, s: State, t: Team, u: nat): State {
    s.(members := if t.Members? then s.members - {u} else s.members,
       owners := if t.Owners? then s.owners - {u} else s.owners,
       grants := s.grants - {Grant(u, TeamObj(c, t), ViewTeam)} - if LooksLikeOwners(c, t) then BothTeams(c, u) else {})
  }

  function OrgRole(c: Config, s: State, u: nat): Option<Role> {
    RoleInOrg(PermsAt(s.grants, u, Profile(c)))
  }

  function Given(s: State, u: nat, o: Obj, perms: set<Perm>): State {
    s.(grants := Assigned(s.grants, u, o, perms))
  }

  function Without(c: Config, s: State, u: nat): State {
    var s1 := Left(c, Left(c, s, Members, u), Owners, u);
    if OrgRole(c, s1, u).Some? then Given(Given(s1, u, Profile(c), {}), u, UserProfile(c), {}) else s1
  }

  function With(c: Config, s: State, u: nat, role: Option<Role>): State {
    var s1 := Joined(c, s, Members, u);
    if role.None? then s1
    else
      var s2 := Given(s1, u, Profile(c), Granted(role.value, AnOrganization));
      if role.value.Owner? then
        Joined(c, Given(s2, u, UserProfile(c), Granted(Owner, AUserProfile)), Owners, u)
      else Given(Left(c, s2, Owners, u), u, UserProfile(c), {})
  }

  /** _get_owners */
  function OwnersOf(c: Config, s: State): set<nat> {
    set u | u in s.owners && OrgRole(c, s, u) == Some(Owner) && u != c.orgUser
  }

  datatype Request = Request(user: Option<nat>, role: Option<Role>, remove: bool)

  /** Not an organization's account, and not the last owner giving up the role. */
  predicate Allowed(c: Config, s: State, r: Request) {
    r.user.Some? ==>
      && r.user.value !in c.orgAccounts
      && (r.remove || r.role != Some(Owner) ==> !(r.user.value in OwnersOf(c, s) && |OwnersOf(c, s)| <= 1))
  }

  function Applied(c: Config, s: State, r: Request): State {
    if r.user.None? then s
    else if r.remove then Without(c, s, r.user.value)
    else With(c, s, r.user.value, r.role)
  }

  function Step(c: Config, s: State, r: Request): State {
    if Allowed(c, s, r) then Applied(c, s, r) else s
  }

  function Run(c: Config, s: State, rs: seq<Request>): State
    decreases |rs|
  {
    if rs == [] then s else Run(c, Step(c, s, rs[0]), rs[1..])
  }

  // ---------------------------------------------------------------- the organization, updated in place

  class Organization {
    const config: Config
    const store: PermissionStore
    var members: set<nat>
    var owners: set<nat>

    constructor (config: Config, store: PermissionStore, members: set<nat>, owners: set<nat>)
      ensures this.config == config && this.store == store && this.members == members && this.owners == owners
    {
      this.config, this.store, this.members, this.owners := config, store, members, owners;
    }

    function Abs(): State
      reads this, store
    {
      State(members, owners, store.grants)
    }

    method AddUserToTeam(t: Team, u: nat)
      modifies this, store
      ensures Abs() == Joined(config, old(Abs()), t, u)
    {
      if t.Members? {
        members := members + {u};
      } else {
        owners := owners + {u};
      }
      store.AssignPerm(ViewTeam, u, TeamObj(config, t));
      if LooksLikeOwners(config, t) {
        ghost var before := store.grants;
        for i := 0 to |TEAM|
          invariant members == old(members) + (if t.Members? then {u} else {})
          invariant owners == old(owners) + (if t.Owners? then {u} else {})
          invariant store.grants == before + FirstGrants(config, u, i)
        {
          store.AssignPerm(TEAM[i], u, TeamObj(config, Owners));
          store.AssignPerm(TEAM[i], u, TeamObj(config, Members));
        }
        AllGrants(config, u);
      }
    }

    method RemoveUserFromTeam(t: Team, u: nat)
      modifies this, store
      ensures Abs() == Left(config, old(Abs()), t, u)
    {
      if t.Members? {
        members := members - {u};
      } else {
        owners := owners - {u};
      }
      store.RemovePerm(ViewTeam, u, TeamObj(config, t));
      if LooksLikeOwners(config, t) {
        ghost var before := store.grants;
        for i := 0 to |TEAM|
          invariant members == old(members) - (if t.Members? then {u} else {})
          invariant owners == old(owners) - (if t.Owners? then {u} else {})
          invariant store.grants == before - FirstGrants(config, u, i)
        {
          store.RemovePerm(TEAM[i], u, TeamObj(config, Owners));
          store.RemovePerm(TEAM[i], u, TeamObj(config, Members));
        }
        AllGrants(config, u);
      }
    }

    method RemoveUserFromOrganization(u: nat)
      modifies this, store
      ensures Abs() == Without(config, old(Abs()), u)
    {
      RemoveUserFromTeam(Members, u);
      RemoveUserFromTeam(Owners, u);
      var role := RoleInOrg(PermsAt(store.grants, u, Profile(config)));
      if role.Some? {
        store.RemoveObjPermissions(u, Profile(config));
        store.RemoveObjPermissions(u, UserProfile(config));
      }
    }

    method AddUserToOrganization(u: nat, role: Option<Role>)
      modifies this, store
      ensures Abs() == With(config, old(Abs()), u, role)
    {
      AddUserToTeam(Members, u);
      if role.Some? {
        store.Add(role.value, u, Profile(config));
        if role.value.Owner? {
          store.Add(Owner, u, UserProfile(config));
          AddUserToTeam(Owners, u);
        } else {
          RemoveUserFromTeam(Owners, u);
          store.RemoveObjPermissions(u, UserProfile(config));
        }
      }
    }

    /** validate_username and validate. */
    method Validate(r: Request) returns (ok: bool)
      ensures ok == Allowed(config, Abs(), r)
    {
      if r.user.Some? && r.user.value in config.orgAccounts {
        return false;
      }
      if r.user.Some? && (r.remove || r.role != Some(Owner)) {
        var current := OwnersOf(config, Abs());
        if r.user.value in current && |current| <= 1 {
          return false;
        }
      }
      ok := true;
    }

    method Create(r: Request)
      modifies this, store
      ensures Abs() == Applied(config, old(Abs()), r)
    {
      if r.user.Some? {
        if r.remove {
          RemoveUserFromOrganization(r.user.value);
        } else {
          AddUserToOrganization(r.user.value, r.role);
        }
      }
    }

    /** One request: validated, then carried out. */
    method Submit(r: Request) returns (ok: bool)
      modifies this, store
      ensures ok == Allowed(config, old(Abs()), r) && Abs() == Step(config, old(Abs()), r)
    {
      ok := Validate(r);
      if ok {
        Create(r);
      }
    }
  }

  function FirstGrants(c: Config, u: nat, n: nat): set<Grant>
    requires n <= |TEAM|
  {
    if n == 0 then {}
    else
      FirstGrants(c, u, n - 1)
      + {Grant(u, TeamObj(c, Owners), TEAM[n - 1]), Grant(u, TeamObj(c, Members), TEAM[n - 1])}
  }

  lemma AllGrants(c: Config, u: nat)
    ensures FirstGrants(c, u, |TEAM|) == BothTeams(c, u)
  {
    var o, m := TeamObj(c, Owners), TeamObj(c, Members);
    assert FirstGrants(c, u, 1) == {Grant(u, o, AddTeam), Grant(u, m, AddTeam)};
    assert FirstGrants(c, u, 2) == FirstGrants(c, u, 1) + {Grant(u, o, ChangeTeam), Grant(u, m, ChangeTeam)};
    assert FirstGrants(c, u, 3) == FirstGrants(c, u, 2) + {Grant(u, o, DeleteTeam), Grant(u, m, DeleteTeam)};
    assert FirstGrants(c, u, 4) == FirstGrants(c, u, 3) + {Grant(u, o, ViewTeam), Grant(u, m, ViewTeam)};
  }

  // ---------------------------------------------------------------- what an operation changes

  predicate IsOwner(c: Config, s: State, u: nat) {
    IsOrgOwner in PermsAt(s.grants, u, Profile(c))
  }

  /** Team changes touch no permission on anything but the two teams, and nobody else's. */
  lemma TeamsApart(c: Config, s: State, t: Team, u: nat, v: nat, o: Obj)
    requires !o.class_.ATeam? || v != u
    ensures PermsAt(Joined(c, s, t, u).grants, v, o) == PermsAt(s.grants, v, o)
    ensures PermsAt(Left(c, s, t, u).grants, v, o) == PermsAt(s.grants, v, o)
  {}

  /** Adding with a role gives exactly the role's permissions on the profiles; others keep all they have. */
  lemma AddedExactly(c: Config, s: State, u: nat, role: Option<Role>, v: nat, o: Obj)
    requires o == Profile(c) || o == UserProfile(c) || (v != u)
    ensures PermsAt(With(c, s, u, role).grants, v, o)
         == if v != u || role.None? then PermsAt(s.grants, v, o)
            else if o == Profile(c) then Granted(role.value, AnOrganization)
            else if role.value.Owner? then Granted(Owner, AUserProfile) else {}
    ensures With(c, s, u, role).owners
         == if role.None? then s.owners else if role.value.Owner? then s.owners + {u} else s.owners - {u}
    ensures With(c, s, u, role).members == s.members + {u}
  {
    var s1 := Joined(c, s, Members, u);
    TeamsApart(c, s, Members, u, v, o);
    if role.Some? {
      var s2 := Given(s1, u, Profile(c), Granted(role.value, AnOrganization));
      AssignedExactly(s1.grants, u, Profile(c), Granted(role.value, AnOrganization), v, o);
      if role.value.Owner? {
        var s3 := Given(s2, u, UserProfile(c), Granted(Owner, AUserProfile));
        AssignedExactly(s2.grants, u, UserProfile(c), Granted(Owner, AUserProfile), v, o);
        TeamsApart(c, s3, Owners, u, v, o);
      } else {
        TeamsApart(c, s2, Owners, u, v, o);
        AssignedExactly(Left(c, s2, Owners, u).grants, u, UserProfile(c), {}, v, o);
      }
    }
  }

  /** Removing takes the profiles' permissions away when they make up a role; others keep all they have. */
  lemma RemovedExactly(c: Config, s: State, u: nat, v: nat, o: Obj)
    requires o == Profile(c) || o == UserProfile(c) || v != u
    ensures PermsAt(Without(c, s, u).grants, v, o)
         == if v == u && OrgRole(c, s, u).Some? then {} else PermsAt(s.grants, v, o)
    ensures Without(c, s, u).owners == s.owners - {u} && Without(c, s, u).members == s.members - {u}
  {
    var s1 := Left(c, s, Members, u);
    var s2 := Left(c, s1, Owners, u);
    TeamsApart(c, s, Members, u, u, Profile(c));
    TeamsApart(c, s1, Owners, u, u, Profile(c));
    TeamsApart(c, s, Members, u, v, o);
    TeamsApart(c, s1, Owners, u, v, o);
    AssignedExactly(s2.grants, u, Profile(c), {}, v, o);
    AssignedExactly(Assigned(s2.grants, u, Profile(c), {}), u, UserProfile(c), {}, v, o);
  }

  // ---------------------------------------------------------------- there is always an owner

  /** Members of the owners' team are exactly the users with the owner role. */
  ghost predicate TeamMatchesRole(c: Config, s: State) {
    forall u :: u != c.orgUser ==> (u in s.owners <==> IsOwner(c, s, u))
  }

  predicate StillOwner(r: Request, v: nat, before: bool)
    requires r.user.Some?
  {
    if v != r.user.value || (!r.remove && r.role.None?) then before else !r.remove && r.role == Some(Owner)
  }

  lemma AddedOwnership(c: Config, s: State, r: Request, v: nat)
    requires r.user.Some? && !r.remove
    ensures var after := With(c, s, r.user.value, r.role);
            && (IsOwner(c, after, v) <==> StillOwner(r, v, IsOwner(c, s, v)))
            && (v in after.owners <==> StillOwner(r, v, v in s.owners))
  {
    AddedExactly(c, s, r.user.value, r.role, v, Profile(c));
  }

  /** After an allowed request a user is an owner exactly when the request made or left them one. */
  lemma OwnershipAfter(c: Config, s: State, r: Request, v: nat)
    requires Allowed(c, s, r) && r.user.Some?
    ensures IsOwner(c, Step(c, s, r), v) <==> StillOwner(r, v, IsOwner(c, s, v))
    ensures v in Step(c, s, r).owners <==> StillOwner(r, v, v in s.owners)
  {
    if r.remove {
      RemovedExactly(c, s, r.user.value, v, Profile(c));
    } else {
      AddedOwnership(c, s, r, v);
    }
  }

  lemma StepKeepsMatch(c: Config, s: State, r: Request)
    requires TeamMatchesRole(c, s)
    ensures TeamMatchesRole(c, Step(c, s, r))
  {
    if Allowed(c, s, r) && r.user.Some? {
      forall v | v != c.orgUser
        ensures v in Step(c, s, r).owners <==> IsOwner(c, Step(c, s, r), v)
      {
        OwnershipAfter(c, s, r, v);
      }
    }
  }

  /** The same of a request that is carried out, whether or not it was allowed in this state. */
  lemma OwnersApplied(c: Config, s: State, r: Request, v: nat)
    requires r.user.Some? && r.user.value != c.orgUser
    ensures v in OwnersOf(c, Applied(c, s, r)) <==> StillOwner(r, v, v in OwnersOf(c, s))
  {
    if r.remove {
      RemovedExactly(c, s, r.user.value, v, Profile(c));
    } else {
      AddedOwnership(c, s, r, v);
    }
  }

  lemma StepKeepsOwner(c: Config, s: State, r: Request)
    requires OwnersOf(c, s) != {} && c.orgUser in c.orgAccounts
    ensures OwnersOf(c, Step(c, s, r)) != {}
  {
    if Allowed(c, s, r) && r.user.Some? {
      var u := r.user.value;
      if u in OwnersOf(c, s) && (r.remove || r.role != Some(Owner)) {
        assert |OwnersOf(c, s)| > 1;
        var others := OwnersOf(c, s) - {u};
        assert others != {} by {
          assert OwnersOf(c, s) == others + {u};
        }
        var v :| v in others;
        OwnersApplied(c, s, r, v);
      } else {
        var v :| v in OwnersOf(c, s);
        OwnersApplied(c, s, r, v);
      }
    }
  }

  /** Every run of requests keeps an owner, and keeps the owners' team the users with the owner role. */
  lemma {:induction false} RunKeepsOwner(c: Config, s: State, rs: seq<Request>)
    requires OwnersOf(c, s) != {} && c.orgUser in c.orgAccounts
    ensures OwnersOf(c, Run(c, s, rs)) != {}
    ensures TeamMatchesRole(c, s) ==> TeamMatchesRole(c, Run(c, s, rs))
    decreases |rs|
  {
    if rs != [] {
      StepKeepsOwner(c, s, rs[0]);
      if TeamMatchesRole(c, s) {
        StepKeepsMatch(c, s, rs[0]);
      }
      RunKeepsOwner(c, Step(c, s, rs[0]), rs[1..]);
    }
  }

  /** The user is removed or gets another role than owner. */
  predicate GivesUp(r: Request, u: nat) {
    r.user == Some(u) && (r.remove || (r.role.Some? && r.role != Some(Owner)))
  }

  predicate MakesOwner(r: Request) {
    r.user.Some? && !r.remove && r.role == Some(Owner)
  }

  lemma OwnersAppliedBy(c: Config, s: State, r: Request, v: nat)
    requires r.user.Some? ==> r.user.value != c.orgUser
    ensures v in OwnersOf(c, Applied(c, s, r)) <==>
              !GivesUp(r, v) && (v in OwnersOf(c, s) || (MakesOwner(r) && r.user == Some(v)))
  {
    if r.user.Some? {
      OwnersApplied(c, s, r, v);
    }
  }

  /**
   Two requests that are both validated before either is carried out: nobody is left as an owner if and only if every
   owner is given up by one of them and neither makes an owner. So the check and the change must not come apart.
   */
  lemma CheckedApartExactly(c: Config, s: State, r1: Request, r2: Request)
    requires OwnersOf(c, s) != {} && c.orgUser in c.orgAccounts && Allowed(c, s, r1) && Allowed(c, s, r2)
    ensures OwnersOf(c, Applied(c, Applied(c, s, r1), r2)) == {} <==>
              (forall u :: u in OwnersOf(c, s) ==> GivesUp(r1, u) || GivesUp(r2, u)) && !MakesOwner(r1)
                  && !MakesOwner(r2)
  {
    var s1 := Applied(c, s, r1);
    var owners, left := OwnersOf(c, s), OwnersOf(c, Applied(c, s1, r2));
    forall v: nat
      ensures v in left <==>
                !GivesUp(r2, v) && ((!GivesUp(r1, v) && (v in owners || (MakesOwner(r1) && r1.user == Some(v))))
                                    || (MakesOwner(r2) && r2.user == Some(v)))
    {
      OwnersAppliedBy(c, s, r1, v);
      OwnersAppliedBy(c, s1, r2, v);
    }
    assert MakesOwner(r2) ==> r2.user.value in left;
    if MakesOwner(r1) {
      OneRequestKeepsOwner(c, s, r1, r2);
    }
  }

  /** A single request cannot give up every owner. */
  lemma OneRequestKeepsOwner(c: Config, s: State, r1: Request, r2: Request)
    requires OwnersOf(c, s) != {} && MakesOwner(r1) && Allowed(c, s, r2)
    ensures exists u :: u in OwnersOf(c, s) && !GivesUp(r1, u) && !GivesUp(r2, u)
  {
    var owners := OwnersOf(c, s);
    if r2.user.Some? && r2.user.value in owners && GivesUp(r2, r2.user.value) {
      var others := owners - {r2.user.value};
      assert owners == others + {r2.user.value};
      assert others != {};
      var u :| u in others;
      assert !GivesUp(r2, u);
    } else {
      var u :| u in owners;
      assert !GivesUp(r2, u);
    }
  }

  /** Each of two owners may be removed, but not both. */
  lemma BothOwnersRemoved(c: Config, s: State, a: nat, b: nat)
    requires a != b && OwnersOf(c, s) == {a, b} && a !in c.orgAccounts && b !in c.orgAccounts
        && c.orgUser in c.orgAccounts
    ensures var removeA, removeB := Request(Some(a), None, true), Request(Some(b), None, true);
            && Allowed(c, s, removeA) && Allowed(c, s, removeB)
            && OwnersOf(c, Applied(c, Applied(c, s, removeA), removeB)) == {}
  {
    assert |{a, b}| == 2;
    CheckedApartExactly(c, s, Request(Some(a), None, true), Request(Some(b), None, true));
  }

  // ---------------------------------------------------------------- nothing is left behind

  /** Users whose permissions make up no role have none on the organization. */
  ghost predicate NoLooseEnds(c: Config, s: State) {
    forall u :: u !in c.orgAccounts ==> NoLooseEnd(c, s, u)
  }

  predicate NoLooseEnd(c: Config, s: State, u: nat) {
    OrgRole(c, s, u).None? ==> PermsAt(s.grants, u, Profile(c)) == {} && PermsAt(s.grants, u, UserProfile(c)) == {}
  }

  lemma RolesOfGranted(role: Role)
    ensures RoleInOrg(Granted(role, AnOrganization)).None? ==> Granted(role, AnOrganization) == {}
  {
    OrgRoleReadsBack(role);
  }

  lemma StepKeepsEnds(c: Config, s: State, r: Request)
    requires NoLooseEnds(c, s)
    ensures NoLooseEnds(c, Step(c, s, r))
  {
    if Allowed(c, s, r) && r.user.Some? {
      var u, after := r.user.value, Step(c, s, r);
      forall v | v !in c.orgAccounts
        ensures NoLooseEnd(c, after, v)
      {
        assert NoLooseEnd(c, s, v);
        AddedExactly(c, s, u, r.role, v, Profile(c));
        AddedExactly(c, s, u, r.role, v, UserProfile(c));
        RemovedExactly(c, s, u, v, Profile(c));
        RemovedExactly(c, s, u, v, UserProfile(c));
        if r.role.Some? {
          RolesOfGranted(r.role.value);
          OrgRoleReadsBack(r.role.value);
        }
      }
    }
  }

  lemma {:induction false} RunKeepsEnds(c: Config, s: State, rs: seq<Request>)
    requires NoLooseEnds(c, s)
    ensures NoLooseEnds(c, Run(c, s, rs))
    decreases |rs|
  {
    if rs != [] {
      StepKeepsEnds(c, s, rs[0]);
      RunKeepsEnds(c, Step(c, s, rs[0]), rs[1..]);
    }
  }

  /** In every run, a removed user is in neither team and has no permission on the organization or its profile. */
  lemma RemovalLeavesNothing(c: Config, s: State, rs: seq<Request>, u: nat)
    requires NoLooseEnds(c, s) && Allowed(c, Run(c, s, rs), Request(Some(u), None, true))
    ensures var after := Step(c, Run(c, s, rs), Request(Some(u), None, true));
            && u !in after.members && u !in after.owners
            && PermsAt(after.grants, u, Profile(c)) == {} && PermsAt(after.grants, u, UserProfile(c)) == {}
  {
    RunKeepsEnds(c, s, rs);
    var now := Run(c, s, rs);
    assert NoLooseEnd(c, now, u);
    RemovedExactly(c, now, u, u, Profile(c));
    RemovedExactly(c, now, u, u, UserProfile(c));
  }

  // ---------------------------------------------------------------- the teams by their names

  lemma {:induction false} FindPast(s: string, t: string)
    requires |t| >= |OWNERS| && OWNERS <= t
    ensures 0 <= Find(s + t, OWNERS) <= |s|
    decreases |s|
  {
    var all := s + t;
    if s == "" {
      assert all == t;
    } else {
      assert all[1..] == s[1..] + t;
      FindPast(s[1..], t);
    }
  }

  /** The owners' team is recognised by its name exactly when the organization's name does not start with "Owners". */
  lemma OwnersRecognisedExactly(c: Config)
    ensures LooksLikeOwners(c, Owners) <==> !(OWNERS <= c.username)
  {
    var name := TeamName(c, Owners);
    FindPast(c.username + "#", OWNERS);
    assert OWNERS <= c.username ==> OWNERS <= name;
    NoHashInOwners(c);
    assert OWNERS <= name ==> OWNERS == name[..|OWNERS|] == c.username[..|OWNERS|];
  }

  lemma NoHashInOwners(c: Config)
    ensures OWNERS <= TeamName(c, Owners) ==> |c.username| >= |OWNERS|
  {
    assert forall i :: 0 <= i < |OWNERS| ==> OWNERS[i] != '#';
    assert TeamName(c, Owners)[|c.username|] == '#';
  }

  /**
   A user added with a role other than owner cannot view the members' team: leaving the owners' team takes the
   permission away again. It stays only where the owners' team is not recognised.
   */
  lemma NonOwnerViewsTeamExactly(c: Config, s: State, u: nat, role: Role)
    requires role != Owner
    ensures ViewTeam in PermsAt(With(c, s, u, Some(role)).grants, u, TeamObj(c, Members))
        <==> !LooksLikeOwners(c, Owners)
  {}
}
