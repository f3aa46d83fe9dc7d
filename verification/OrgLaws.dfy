/** What joining and leaving an organization does, stated on permissions, teams and names alone. */
module OrgLaws {
  import opened Common
  import opened Permissions
  import opened OrgMembers

  // ---------------------------------------------------------------- teams by their names

  /** The word stands in the name, but not at its start. */
  ghost predicate InsideName(name: string, word: string) {
    !(word <= name) && exists i | 0 < i <= |name| :: word <= name[i..]
  }

  lemma {:induction false} FindExactly(s: string, sub: string)
    ensures Find(s, sub) == 0 <==> sub <= s
    ensures Find(s, sub) >= 0 <==> exists i | 0 <= i <= |s| :: sub <= s[i..]
    decreases |s|
  {
    assert s[0..] == s;
    if !(sub <= s) && s != "" {
      FindExactly(s[1..], sub);
      if i :| 0 <= i <= |s| && sub <= s[i..] {
        assert s[1..][i - 1..] == s[i..];
      }
      if i :| 0 <= i <= |s[1..]| && sub <= s[1..][i..] {
        assert s[1..][i..] == s[i + 1..];
      }
    }
  }

  /** A team is taken for the owners' if the organization's name and the team's, joined by "#", have "Owners" inside. */
  ghost predicate Recognised(c: Config, t: Team) {
    InsideName(c.username + "#" + (if t.Members? then "members" else "Owners"), "Owners")
  }

  lemma RecognisedExactly(c: Config, t: Team)
    ensures LooksLikeOwners(c, t) <==> Recognised(c, t)
  {
    var name := TeamName(c, t);
    FindExactly(name, OWNERS);
    assert name[0..] == name;
  }

  // ---------------------------------------------------------------- permissions on the teams

  /** What a user gets with a team: viewing it, and everything on both teams if it is taken for the owners'. */
  ghost function ByTeam(c: Config, team: Team, on: Team): set<Perm> {
    (if team == on then {ViewTeam} else {})
    + if Recognised(c, team) then {AddTeam, ChangeTeam, DeleteTeam, ViewTeam} else {}
  }

  ghost function On(c: Config, s: State, u: nat, on: Team): set<Perm> {
    PermsAt(s.grants, u, TeamObj(c, on))
  }

  lemma TeamGrants(c: Config, u: nat, on: Team, p: Perm)
    ensures Grant(u, TeamObj(c, on), p) in BothTeams(c, u) <==> p in {AddTeam, ChangeTeam, DeleteTeam, ViewTeam}
  {
    assert TEAM[0] == AddTeam && TEAM[1] == ChangeTeam && TEAM[2] == DeleteTeam && TEAM[3] == ViewTeam;
  }

  lemma TeamChange(c: Config, s: State, team: Team, u: nat, on: Team)
    ensures On(c, Joined(c, s, team, u), u, on) == On(c, s, u, on) + ByTeam(c, team, on)
    ensures On(c, Left(c, s, team, u), u, on) == On(c, s, u, on) - ByTeam(c, team, on)
  {
    RecognisedExactly(c, team);
    forall p
      ensures p in On(c, Joined(c, s, team, u), u, on) <==> p in On(c, s, u, on) + ByTeam(c, team, on)
      ensures p in On(c, Left(c, s, team, u), u, on) <==> p in On(c, s, u, on) - ByTeam(c, team, on)
    {
      TeamGrants(c, u, on, p);
      var g := Grant(u, TeamObj(c, on), p);
      assert p in On(c, Joined(c, s, team, u), u, on) <==> g in Joined(c, s, team, u).grants;
      assert p in On(c, Left(c, s, team, u), u, on) <==> g in Left(c, s, team, u).grants;
    }
  }

  lemma GivenApart(c: Config, s: State, u: nat, o: Obj, perms: set<Perm>, on: Team)
    requires !o.class_.ATeam?
    ensures On(c, Given(s, u, o, perms), u, on) == On(c, s, u, on)
  {
    AssignedExactly(s.grants, u, o, perms, u, TeamObj(c, on));
  }

  /** Whoever is added joins the members; a new owner joins the owners too, any other role leaves them; whoever is
      removed leaves both. Each team gives, or takes away, what it stands for. */
  lemma TeamPermsExactly(c: Config, s: State, u: nat, role: Option<Role>, on: Team)
    ensures On(c, With(c, s, u, role), u, on)
            == match role
               case None => On(c, s, u, on) + ByTeam(c, Members, on)
               case Some(Owner) => On(c, s, u, on) + ByTeam(c, Members, on) + ByTeam(c, Owners, on)
               case Some(_) => On(c, s, u, on) + ByTeam(c, Members, on) - ByTeam(c, Owners, on)
    ensures On(c, Without(c, s, u), u, on) == On(c, s, u, on) - ByTeam(c, Members, on) - ByTeam(c, Owners, on)
  {
    AddedOnTeams(c, s, u, role, on);
    var s1 := Left(c, s, Members, u);
    var s2 := Left(c, s1, Owners, u);
    TeamChange(c, s, Members, u, on);
    TeamChange(c, s1, Owners, u, on);
    GivenApart(c, s2, u, Profile(c), {}, on);
    GivenApart(c, Given(s2, u, Profile(c), {}), u, UserProfile(c), {}, on);
  }

  lemma AddedOnTeams(c: Config, s: State, u: nat, role: Option<Role>, on: Team)
    ensures On(c, With(c, s, u, role), u, on)
            == match role
               case None => On(c, s, u, on) + ByTeam(c, Members, on)
               case Some(Owner) => On(c, s, u, on) + ByTeam(c, Members, on) + ByTeam(c, Owners, on)
               case Some(_) => On(c, s, u, on) + ByTeam(c, Members, on) - ByTeam(c, Owners, on)
  {
    var s1 := Joined(c, s, Members, u);
    TeamChange(c, s, Members, u, on);
    if role.Some? {
      var s2 := Given(s1, u, Profile(c), Granted(role.value, AnOrganization));
      GivenApart(c, s1, u, Profile(c), Granted(role.value, AnOrganization), on);
      if role.value.Owner? {
        GivenApart(c, s2, u, UserProfile(c), Granted(Owner, AUserProfile), on);
        TeamChange(c, Given(s2, u, UserProfile(c), Granted(Owner, AUserProfile)), Owners, u, on);
      } else {
        TeamChange(c, s2, Owners, u, on);
        GivenApart(c, Left(c, s2, Owners, u), u, UserProfile(c), {}, on);
      }
    }
  }

  // ---------------------------------------------------------------- owners and refusals

  /** In the owners' team, with the owner's permission on the organization, and not the organization's own account. */
  predicate Owns(c: Config, s: State, u: nat) {
    u in s.owners && u != c.orgUser && Grant(u, Obj(AnOrganization, c.id), IsOrgOwner) in s.grants
  }

  lemma OwnersExactly(c: Config, s: State, u: nat)
    ensures u in OwnersOf(c, s) <==> Owns(c, s, u)
  {
    var perms := PermsAt(s.grants, u, Profile(c));
    assert IsOrgOwner in perms <==> Grant(u, Obj(AnOrganization, c.id), IsOrgOwner) in s.grants;
    if RoleFor(perms, AnOrganization) == Some(Owner) {
      var i :| 0 <= i < |ROLES| && ROLES[i] == Owner && HasRole(ROLES[i], perms, AnOrganization);
      assert IsOrgOwner in Table(Owner, AnOrganization).value;
    }
  }

  /** A request is refused if and only if it names an organization's account, or the only owner and leaves them without
      the owner's role: removed, with another role, or with none given. */
  lemma RefusedExactly(c: Config, s: State, r: Request)
    ensures !Allowed(c, s, r) <==>
              && r.user.Some?
              && (r.user.value in c.orgAccounts
                  || (!(r.role == Some(Owner) && !r.remove) && Owns(c, s, r.user.value)
                      && forall v :: Owns(c, s, v) ==> v == r.user.value))
  {
    if r.user.Some? {
      var u, owners := r.user.value, OwnersOf(c, s);
      forall v: nat
        ensures v in owners <==> Owns(c, s, v)
      {
        OwnersExactly(c, s, v);
      }
      if u in owners {
        var others := owners - {u};
        assert owners == others + {u};
        assert |owners| == |others| + 1;
        if others != {} {
          var v :| v in others;
          assert Owns(c, s, v) && v != u;
        }
      }
    }
  }
}
