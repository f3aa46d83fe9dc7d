/** Roles and object permissions (onadata/libs/permissions.py): direct permissions of users on objects. */
module Permissions {
  import opened Common

  datatype Perm =
    | AddUserProfile | ChangeUserProfile | DeleteUserProfile | ViewProfile
    | CanAddProject | CanAddXForm                    // on a user's or an organization's profile
    | ViewOrganization | AddOrganization | ChangeOrganization | DeleteOrganization | IsOrgOwner
    | ChangeXForm | AddXForm | DeleteXForm | ViewXForm | ViewXFormData | ViewXFormAll | ReportXForm
    | DeleteSubmission | TransferXForm | MoveXForm | ExportXForm
    | ViewMergedXForm
    | AddProject | ViewProject | ViewProjectData | ViewProjectAll | ChangeProject | TransferProject | DeleteProject
    | AddProjectXForm | ReportProject | ExportProject | AddProjectEntityList
    | AddDataDictionary | ChangeDataDictionary | DeleteDataDictionary
    | AddEntityList | ViewEntityList | ChangeEntityList | DeleteEntityList
    | ViewTeam | AddTeam | ChangeTeam | DeleteTeam

  datatype Class =
    | AUserProfile | AnOrganization | AProject | AnXForm | AMergedXForm | ADataDictionary | AnEntityList | ATeam

  datatype Obj = Obj(class_: Class, id: nat)

  /** user has perm on obj. */
  datatype Grant = Grant(user: nat, obj: Obj, perm: Perm)

  datatype Role =
    | ReadOnlyNoDownload | ReadOnly | DataEntryOnly | DataEntryMinor | DataEntry
    | EditorNoDownload | EditorMinor | Editor | Manager | Owner

  const ROLES: seq<Role> := [ReadOnlyNoDownload, ReadOnly, DataEntryOnly, DataEntryMinor, DataEntry,
                             EditorNoDownload, EditorMinor, Editor, Manager, Owner]

  // ---------------------------------------------------------------- the role tables

  /** class_to_permissions; None: the role says nothing about the class. */
  function Table(role: Role, c: Class): Option<set<Perm>> {
    match c
    case AMergedXForm => Some({ViewMergedXForm})
    case AProject => Some(ProjectTable(role))
    case AnXForm => Some(XFormTable(role))
    case AnOrganization => OrganizationTable(role)
    case AUserProfile =>
      (match role
       case Manager => Some({CanAddProject, CanAddXForm, ViewProfile})
       case Owner => Some({CanAddProject, CanAddXForm, AddUserProfile, ChangeUserProfile, DeleteUserProfile,
           ViewProfile})
       case _ => None)
    case AnEntityList =>
      if role.Manager? || role.Owner? then Some({AddEntityList, ViewEntityList, ChangeEntityList, DeleteEntityList})
          else None
    case ADataDictionary =>
      if role.Owner? then Some({AddDataDictionary, ChangeDataDictionary, DeleteDataDictionary}) else None
    case ATeam => None
  }

  function ProjectTable(role: Role): set<Perm> {
    match role
    case ReadOnlyNoDownload => {ViewProject, ViewProjectAll}
    case ReadOnly => {ExportProject, ViewProject, ViewProjectAll}
    case DataEntryOnly => {ReportProject, ExportProject, ViewProject, ViewProjectAll, ViewProjectData}
    case DataEntryMinor => {ReportProject, ExportProject, ViewProject, ViewProjectData}
    case DataEntry => {ReportProject, ExportProject, ViewProject, ViewProjectAll, ViewProjectData}
    case EditorNoDownload => {ReportProject, ChangeProject, ExportProject, ViewProject, ViewProjectData}
    case EditorMinor => {ReportProject, ChangeProject, ExportProject, ViewProject, ViewProjectData}
    case Editor => {ReportProject, ChangeProject, ExportProject, ViewProject, ViewProjectAll, ViewProjectData}
    case Manager => {AddProject, AddProjectXForm, ReportProject, ChangeProject, ExportProject, ViewProject,
                     ViewProjectAll, ViewProjectData, AddProjectEntityList}
    case Owner => {AddProject, AddProjectXForm, ReportProject, ChangeProject, DeleteProject, ExportProject,
                   TransferProject, ViewProject, ViewProjectAll, ViewProjectData, AddProjectEntityList}
  }

  function XFormTable(role: Role): set<Perm> {
    match role
    case ReadOnlyNoDownload => {ViewXForm, ViewXFormAll, ViewXFormData}
    case ReadOnly => {ExportXForm, ViewXForm, ViewXFormAll, ViewXFormData}
    case DataEntryOnly => {ViewXForm, ReportXForm}
    case DataEntryMinor => {ReportXForm, ExportXForm, ViewXForm, ViewXFormData}
    case DataEntry => {ReportXForm, ExportXForm, ViewXForm, ViewXFormAll, ViewXFormData}
    case EditorNoDownload => {ReportXForm, ChangeXForm, DeleteSubmission, ViewXForm, ViewXFormData}
    case EditorMinor => {ReportXForm, ChangeXForm, DeleteSubmission, ExportXForm, ViewXForm, ViewXFormData}
    case Editor => {ReportXForm, ChangeXForm, DeleteSubmission, ExportXForm, ViewXForm, ViewXFormAll, ViewXFormData}
    case Manager => {ReportXForm, AddXForm, ChangeXForm, DeleteSubmission, DeleteXForm, ExportXForm, ViewXForm,
                     ViewXFormAll, ViewXFormData}
    case Owner => {ReportXForm, AddXForm, ChangeXForm, DeleteSubmission, DeleteXForm, ExportXForm, ViewXForm,
                   ViewXFormAll, ViewXFormData, MoveXForm, TransferXForm}
  }

  function OrganizationTable(role: Role): Option<set<Perm>> {
    match role
    case ReadOnlyNoDownload => None
    case Manager => Some({CanAddProject, CanAddXForm, ViewOrganization})
    case Owner => Some({CanAddProject, CanAddXForm, AddOrganization, ChangeOrganization, DeleteOrganization,
                        ViewOrganization, IsOrgOwner})
    case _ => Some({ViewOrganization})
  }

  /** What Role.add grants on an object of a class. */
  function Granted(role: Role, c: Class): set<Perm> {
    var t := Table(role, c);
    if t.Some? then t.value else {}
  }

  // ---------------------------------------------------------------- permissions and roles

  predicate HasRole(role: Role, perms: set<Perm>, c: Class) {
    Table(role, c).Some? && Table(role, c).value <= perms
  }

  /** The highest of the first n roles that the permissions include. */
  function Highest(perms: set<Perm>, c: Class, n: nat): (r: Option<Role>)
    requires n <= |ROLES|
    ensures r.Some? ==> exists i :: 0 <= i < n && ROLES[i] == r.value && HasRole(ROLES[i], perms, c)
                                    && forall j :: i < j < n ==> !HasRole(ROLES[j], perms, c)
    ensures r.None? ==> forall j :: 0 <= j < n ==> !HasRole(ROLES[j], perms, c)
  {
    if n == 0 then None
    else if HasRole(ROLES[n - 1], perms, c) then Some(ROLES[n - 1])
    else Highest(perms, c, n - 1)
  }

  function RoleFor(perms: set<Perm>, c: Class): Option<Role> {
    Highest(perms, c, |ROLES|)
  }

  method GetRole(perms: set<Perm>, c: Class) returns (role: Option<Role>)
    ensures role == RoleFor(perms, c)
  {
    var i := |ROLES|;
    while i > 0
      invariant 0 <= i <= |ROLES| && Highest(perms, c, |ROLES|) == Highest(perms, c, i)
    {
      i := i - 1;
      if HasRole(ROLES[i], perms, c) {
        return Some(ROLES[i]);
      }
    }
    role := None;
  }

  /** get_role_in_org; None stands for "member", which is not one of the roles. */
  function RoleInOrg(perms: set<Perm>): Option<Role> {
    if IsOrgOwner in perms then Some(Owner) else RoleFor(perms, AnOrganization)
  }

  /** On forms a role can be read back from what it grants. */
  lemma FormRoleReadsBack(role: Role)
    ensures RoleFor(Granted(role, AnXForm), AnXForm) == Some(role)
  {
    NoneAbove(role, AnXForm, role);
  }

  /** What a role grants on a project reads back as this role. */
  function ShownOnProject(role: Role): Role {
    match role
    case DataEntryOnly => DataEntry
    case EditorNoDownload => EditorMinor
    case _ => role
  }

  lemma ProjectRoleReadsBackExactly(role: Role)
    ensures RoleFor(Granted(role, AProject), AProject) == Some(ShownOnProject(role))
    ensures RoleFor(Granted(role, AProject), AProject) == Some(role)
        <==> role != DataEntryOnly && role != EditorNoDownload
  {
    NoneAbove(role, AProject, ShownOnProject(role));
  }

  /** Organizations tell only owners, managers and other members apart; a role without permissions reads as no role. */
  lemma OrgRoleReadsBack(role: Role)
    ensures RoleInOrg(Granted(role, AnOrganization))
         == match role
            case Owner => Some(Owner)
            case Manager => Some(Manager)
            case ReadOnlyNoDownload => None
            case _ => Some(Editor)
    ensures RoleInOrg(Granted(role, AnOrganization)) == Some(Owner) <==> role == Owner
  {
    if role != ReadOnlyNoDownload && role != Owner {
      NoneAbove(role, AnOrganization, if role == Manager then Manager else Editor);
    }
  }

  function Rank(role: Role): (i: nat)
    ensures i < |ROLES| && ROLES[i] == role
  {
    match role
    case ReadOnlyNoDownload => 0 case ReadOnly => 1 case DataEntryOnly => 2 case DataEntryMinor => 3 case DataEntry => 4
    case EditorNoDownload => 5 case EditorMinor => 6 case Editor => 7 case Manager => 8 case Owner => 9
  }

  /** The role read back is the highest one whose permissions are all there. */
  lemma NoneAbove(role: Role, c: Class, shown: Role)
    requires HasRole(shown, Granted(role, c), c)
    requires forall other :: Rank(shown) < Rank(other) ==> !HasRole(other, Granted(role, c), c)
    ensures RoleFor(Granted(role, c), c) == Some(shown)
  {
    HighestIs(Granted(role, c), c, shown, |ROLES|);
  }

  lemma RankOf(i: nat)
    requires i < |ROLES|
    ensures Rank(ROLES[i]) == i
  {}

  lemma {:induction false} HighestIs(perms: set<Perm>, c: Class, shown: Role, n: nat)
    requires Rank(shown) < n <= |ROLES| && HasRole(shown, perms, c)
    requires forall other :: Rank(shown) < Rank(other) ==> !HasRole(other, perms, c)
    ensures Highest(perms, c, n) == Some(shown)
  {
    RankOf(n - 1);
    if Rank(shown) < n - 1 {
      HighestIs(perms, c, shown, n - 1);
    }
  }

  predicate Edits(role: Role) {
    role.EditorNoDownload? || role.EditorMinor? || role.Editor? || role.Manager? || role.Owner?
  }

  /** The roles that have a permission on forms. */
  ghost predicate FormUse(role: Role, perm: Perm) {
    match perm
    case ViewXForm => true
    case ViewXFormData => !role.DataEntryOnly?
    case ViewXFormAll => !role.DataEntryOnly? && !role.DataEntryMinor? && !role.EditorNoDownload? && !role.EditorMinor?
    case ExportXForm => !role.ReadOnlyNoDownload? && !role.DataEntryOnly? && !role.EditorNoDownload?
    case ReportXForm => !role.ReadOnlyNoDownload? && !role.ReadOnly?
    case ChangeXForm | DeleteSubmission => Edits(role)
    case AddXForm | DeleteXForm => role.Manager? || role.Owner?
    case MoveXForm | TransferXForm => role.Owner?
    case _ => false
  }

  /** The roles that have a permission on projects. */
  ghost predicate ProjectUse(role: Role, perm: Perm) {
    match perm
    case ViewProject => true
    case ViewProjectData => !role.ReadOnlyNoDownload? && !role.ReadOnly?
    case ViewProjectAll => !role.DataEntryMinor? && !role.EditorNoDownload? && !role.EditorMinor?
    case ExportProject => !role.ReadOnlyNoDownload?
    case ReportProject => !role.ReadOnlyNoDownload? && !role.ReadOnly?
    case ChangeProject => Edits(role)
    case AddProject | AddProjectXForm | AddProjectEntityList => role.Manager? || role.Owner?
    case DeleteProject | TransferProject => role.Owner?
    case _ => false
  }

  lemma LowFormUse(role: Role, perm: Perm)
    requires !Edits(role)
    ensures perm in XFormTable(role) <==> FormUse(role, perm)
  {
    match role
    case ReadOnlyNoDownload => case ReadOnly => case DataEntryOnly => case DataEntryMinor => case DataEntry =>
  }

  lemma HighFormUse(role: Role, perm: Perm)
    requires Edits(role)
    ensures perm in XFormTable(role) <==> FormUse(role, perm)
  {
    match role
    case EditorNoDownload => case EditorMinor => case Editor => case Manager => case Owner =>
  }

  lemma LowProjectUse(role: Role, perm: Perm)
    requires !Edits(role)
    ensures perm in ProjectTable(role) <==> ProjectUse(role, perm)
  {
    match role
    case ReadOnlyNoDownload => case ReadOnly => case DataEntryOnly => case DataEntryMinor => case DataEntry =>
  }

  lemma HighProjectUse(role: Role, perm: Perm)
    requires Edits(role)
    ensures perm in ProjectTable(role) <==> ProjectUse(role, perm)
  {
    match role
    case EditorNoDownload => case EditorMinor => case Editor => case Manager => case Owner =>
  }

  /** Permission by permission: who may see, submit, export, edit, delete and hand on forms and projects. */
  lemma UseExactly(role: Role, perm: Perm)
    ensures perm in Granted(role, AnXForm) <==> FormUse(role, perm)
    ensures perm in Granted(role, AProject) <==> ProjectUse(role, perm)
  {
    if !Edits(role) {
      LowFormUse(role, perm);
      LowProjectUse(role, perm);
    } else {
      HighFormUse(role, perm);
      HighProjectUse(role, perm);
    }
    assert Granted(role, AnXForm) == XFormTable(role) && Granted(role, AProject) == ProjectTable(role);
  }

  ghost predicate OrganizationUse(role: Role, perm: Perm) {
    match perm
    case ViewOrganization => role != ReadOnlyNoDownload
    case CanAddProject | CanAddXForm => role == Manager || role == Owner
    case AddOrganization | ChangeOrganization | DeleteOrganization | IsOrgOwner => role == Owner
    case _ => false
  }

  /** The same of organizations. */
  lemma OrganizationUseExactly(role: Role, perm: Perm)
    ensures perm in Granted(role, AnOrganization) <==> OrganizationUse(role, perm)
  {
    match role
    case ReadOnlyNoDownload => case ReadOnly => case DataEntryOnly => case DataEntryMinor => case DataEntry =>
    case EditorNoDownload => case EditorMinor => case Editor => case Manager => case Owner =>
  }

  /** Managers and owners have profiles and entity lists; a merged form can be viewed by all. */
  lemma OtherUseExactly(role: Role, perm: Perm)
    ensures perm in Granted(role, AUserProfile) <==>
              || (perm in {CanAddProject, CanAddXForm, ViewProfile} && (role == Manager || role == Owner))
              || (perm in {AddUserProfile, ChangeUserProfile, DeleteUserProfile} && role == Owner)
    ensures perm in Granted(role, AnEntityList) <==>
              && (role == Manager || role == Owner)
              && perm in {AddEntityList, ViewEntityList, ChangeEntityList, DeleteEntityList}
    ensures perm in Granted(role, AMergedXForm) <==> perm == ViewMergedXForm
  {}

  // ---------------------------------------------------------------- granting and removing

  function PermsAt(grants: set<Grant>, user: nat, obj: Obj): set<Perm> {
    set g | g in grants && g.user == user && g.obj == obj :: g.perm
  }

  function Assigned(grants: set<Grant>, user: nat, obj: Obj, perms: set<Perm>): set<Grant> {
    (set g | g in grants && !(g.user == user && g.obj == obj)) + (set p | p in perms :: Grant(user, obj, p))
  }

  /** The user has exactly the permissions on the object, and everything else is as it was. */
  lemma AssignedExactly(grants: set<Grant>, user: nat, obj: Obj, perms: set<Perm>, u: nat, o: Obj)
    ensures PermsAt(Assigned(grants, user, obj, perms), u, o)
         == if u == user && o == obj then perms else PermsAt(grants, u, o)
  {}

  class PermissionStore {
    var grants: set<Grant>

    /** remove_perm; removing what is not there does nothing. */
    method RemovePerm(perm: Perm, user: nat, obj: Obj)
      modifies this
      ensures grants == old(grants) - {Grant(user, obj, perm)}
    {
      grants := grants - {Grant(user, obj, perm)};
    }

    method AssignPerm(perm: Perm, user: nat, obj: Obj)
      modifies this
      ensures grants == old(grants) + {Grant(user, obj, perm)}
    {
      grants := grants + {Grant(user, obj, perm)};
    }

    method RemoveObjPermissions(user: nat, obj: Obj)
      modifies this
      ensures grants == Assigned(old(grants), user, obj, {})
    {
      var perms := PermsAt(grants, user, obj);
      ghost var before := grants;
      while perms != {}
        invariant grants <= before && perms <= PermsAt(before, user, obj)
        invariant forall g :: g in before && g !in grants ==> g.user == user && g.obj == obj
        invariant forall g :: g in grants && g.user == user && g.obj == obj ==> g.perm in perms
        decreases perms
      {
        var perm :| perm in perms;
        RemovePerm(perm, user, obj);
        perms := perms - {perm};
      }
    }

    /** Role.add: the role's permissions replace those the user has. */
    method Add(role: Role, user: nat, obj: Obj)
      modifies this
      ensures grants == Assigned(old(grants), user, obj, Granted(role, obj.class_))
    {
      RemoveObjPermissions(user, obj);
      ghost var cleared := grants;
      var perms := Granted(role, obj.class_);
      ghost var added := {};
      while perms != {}
        invariant perms + added == Granted(role, obj.class_)
        invariant grants == cleared + set p | p in added :: Grant(user, obj, p)
        decreases perms
      {
        var perm :| perm in perms;
        AssignPerm(perm, user, obj);
        perms, added := perms - {perm}, added + {perm};
      }
      assert added == Granted(role, obj.class_);
    }
  }
}
