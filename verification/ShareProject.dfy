/**
 Sharing a project with a user (onadata/libs/models/share_project.py): the role on the project is passed on to its
 forms, merged forms and entity lists, or everything is taken away again.
 */
module ShareProject {
  import opened Common
  import opened Permissions

  /** The roles a form prescribes for editors, data entry users and readers. */
  datatype MetaPerms = MetaPerms(editor: Role, dataEntry: Role, readOnly: Role)

  datatype ProjectForm = ProjectForm(id: nat, merged: bool, meta: Option<MetaPerms>)

  datatype DataView = DataView(form: nat, matchesParent: bool)

  datatype Project = Project(id: nat, forms: seq<ProjectForm>, dataViews: seq<DataView>, entityLists: seq<nat>)

  predicate IgnoresMeta(role: Role) {
    role == ReadOnlyNoDownload || role == Manager || role == Owner
  }

  /** The role on a form: update_role_by_meta_xform_perms replaces it where the form prescribes roles. */
  function FormRole(role: Role, form: ProjectForm): Role {
    if form.meta.None? || IgnoresMeta(role) then role
    else match role
      case EditorNoDownload | EditorMinor | Editor => form.meta.value.editor
      case DataEntryOnly | DataEntryMinor | DataEntry => form.meta.value.dataEntry
      case ReadOnly => form.meta.value.readOnly
      case _ => role
  }

  /** By what the role may do: who may edit but not delete a form is its editor, who may only submit is data entry,
      who may only export is a reader; the form's role for them is taken, and any other role stays. */
  lemma FormRoleExactly(role: Role, form: ProjectForm)
    ensures var may := Granted(role, AnXForm);
            FormRole(role, form)
            == if form.meta.None? || DeleteXForm in may then role
               else if ChangeXForm in may then form.meta.value.editor
               else if ReportXForm in may then form.meta.value.dataEntry
               else if ExportXForm in may then form.meta.value.readOnly
               else role
  {}

  // ---------------------------------------------------------------- what a share assigns

  /** New permissions of one user, by object. */
  type Assignments = map<Obj, set<Perm>>

  function FormAssignments(role: Role, forms: seq<ProjectForm>): Assignments {
    if forms == [] then map[]
    else
      var f := forms[|forms| - 1];
      var before := FormAssignments(role, forms[..|forms| - 1]);
      var rest := before[Obj(AnXForm, f.id) := Granted(FormRole(role, f), AnXForm)];
      if f.merged then rest[Obj(AMergedXForm, f.id) := Granted(role, AMergedXForm)] else rest
  }

  function DataViewAssignments(role: Role, views: seq<DataView>): Assignments {
    if views == [] then map[]
    else
      var v, rest := views[|views| - 1], DataViewAssignments(role, views[..|views| - 1]);
      if v.matchesParent then rest[Obj(AnXForm, v.form) := Granted(role, AnXForm)] else rest
  }

  function ListAssignments(perms: set<Perm>, lists: seq<nat>): Assignments {
    if lists == [] then map[]
    else ListAssignments(perms, lists[..|lists| - 1])[Obj(AnEntityList, lists[|lists| - 1]) := perms]
  }

  function Shared(role: Role, p: Project): Assignments {
    map[Obj(AProject, p.id) := Granted(role, AProject)] + FormAssignments(role, p.forms)
    + DataViewAssignments(role, p.dataViews) + ListAssignments(Granted(role, AnEntityList), p.entityLists)
  }

  function FormRemovals(forms: seq<ProjectForm>): Assignments {
    if forms == [] then map[]
    else
      var f := forms[|forms| - 1];
      var rest := FormRemovals(forms[..|forms| - 1])[Obj(AnXForm, f.id) := {}];
      if f.merged then rest[Obj(AMergedXForm, f.id) := {}] else rest
  }

  function DataViewRemovals(views: seq<DataView>): Assignments {
    if views == [] then map[]
    else DataViewRemovals(views[..|views| - 1])[Obj(AnXForm, views[|views| - 1].form) := {}]
  }

  function Removed(p: Project): Assignments {
    FormRemovals(p.forms) + DataViewRemovals(p.dataViews) + ListAssignments({}, p.entityLists)
        + map[Obj(AProject, p.id) := {}]
  }

  /** The user's permissions on the named objects are those given; nothing else changed, for anyone. */
  ghost predicate Applied(before: set<Grant>, after: set<Grant>, user: nat, given: Assignments) {
    forall u, o :: AppliedAt(before, after, user, given, u, o)
  }

  predicate AppliedAt(before: set<Grant>, after: set<Grant>, user: nat, given: Assignments, u: nat, o: Obj) {
    PermsAt(after, u, o) == if u == user && o in given then given[o] else PermsAt(before, u, o)
  }

  lemma OneMore(before: set<Grant>, after: set<Grant>, user: nat, given: Assignments, obj: Obj, perms: set<Perm>)
    requires Applied(before, after, user, given)
    ensures Applied(before, Assigned(after, user, obj, perms), user, given[obj := perms])
  {
    var now, more := Assigned(after, user, obj, perms), given[obj := perms];
    forall u, o
      ensures AppliedAt(before, now, user, more, u, o)
    {
      assert AppliedAt(before, after, user, given, u, o);
      AssignedExactly(after, user, obj, perms, u, o);
    }
  }

  lemma InTurn(a: set<Grant>, b: set<Grant>, c: set<Grant>, user: nat, first: Assignments, second: Assignments)
    requires Applied(a, b, user, first) && Applied(b, c, user, second)
    ensures Applied(a, c, user, first + second)
  {
    var both := first + second;
    forall u, o
      ensures AppliedAt(a, c, user, both, u, o)
    {
      assert AppliedAt(a, b, user, first, u, o) && AppliedAt(b, c, user, second, u, o);
    }
  }

  // ---------------------------------------------------------------- ShareProject

  class Share {
    const store: PermissionStore
    const project: Project
    const user: nat
    const role: Option<Role>      // None: not the name of a role
    const remove: bool

    constructor (store: PermissionStore, project: Project, user: nat, role: Option<Role>, remove: bool)
      ensures this.store == store && this.project == project && this.user == user && this.role == role
          && this.remove == remove
    {
      this.store, this.project, this.user, this.role, this.remove := store, project, user, role, remove;
    }

    method Save()
      modifies store
      ensures Applied(old(store.grants), store.grants, user,
                      if role.None? then map[] else if remove then Removed(project) else Shared(role.value, project))
    {
      if remove {
        RemoveUser();
      } else if role.Some? {
        ghost var g0 := store.grants;
        store.Add(role.value, user, Obj(AProject, project.id));
        OneMore(g0, g0, user, map[], Obj(AProject, project.id), Granted(role.value, AProject));
        ghost var g1 := store.grants;
        AddToForms(role.value);
        ghost var g2 := store.grants;
        AddToDataViews(role.value);
        ghost var g3 := store.grants;
        AddToEntityLists(role.value);
        ghost var g4 := store.grants;
        var onProject := map[Obj(AProject, project.id) := Granted(role.value, AProject)];
        InTurn(g0, g1, g2, user, onProject, FormAssignments(role.value, project.forms));
        InTurn(g0, g2, g3, user, onProject + FormAssignments(role.value, project.forms),
               DataViewAssignments(role.value, project.dataViews));
        InTurn(g0, g3, g4, user,
               onProject + FormAssignments(role.value, project.forms)
                   + DataViewAssignments(role.value, project.dataViews),
               ListAssignments(Granted(role.value, AnEntityList), project.entityLists));
      }
    }

    method AddToForms(role: Role)
      modifies store
      ensures Applied(old(store.grants), store.grants, user, FormAssignments(role, project.forms))
    {
      for i := 0 to |project.forms|
        invariant Applied(old(store.grants), store.grants, user, FormAssignments(role, project.forms[..i]))
      {
        var form := project.forms[i];
        assert project.forms[..i + 1][..i] == project.forms[..i];
        ghost var given := FormAssignments(role, project.forms[..i]);
        ghost var g := store.grants;
        var onForm := if form.meta.Some? && !IgnoresMeta(role) then FormRole(role, form) else role;
        store.Add(onForm, user, Obj(AnXForm, form.id));
        OneMore(old(store.grants), g, user, given, Obj(AnXForm, form.id), Granted(onForm, AnXForm));
        g, given := store.grants, given[Obj(AnXForm, form.id) := Granted(onForm, AnXForm)];
        if form.merged {
          store.Add(role, user, Obj(AMergedXForm, form.id));
          OneMore(old(store.grants), g, user, given, Obj(AMergedXForm, form.id), Granted(role, AMergedXForm));
        }
      }
      assert project.forms[..|project.forms|] == project.forms;
    }

    method AddToDataViews(role: Role)
      modifies store
      ensures Applied(old(store.grants), store.grants, user, DataViewAssignments(role, project.dataViews))
    {
      for i := 0 to |project.dataViews|
        invariant Applied(old(store.grants), store.grants, user, DataViewAssignments(role, project.dataViews[..i]))
      {
        var view := project.dataViews[i];
        assert project.dataViews[..i + 1][..i] == project.dataViews[..i];
        ghost var g := store.grants;
        if view.matchesParent {
          store.Add(role, user, Obj(AnXForm, view.form));
          OneMore(old(store.grants), g, user, DataViewAssignments(role, project.dataViews[..i]),
              Obj(AnXForm, view.form),
                  Granted(role, AnXForm));
        }
      }
      assert project.dataViews[..|project.dataViews|] == project.dataViews;
    }

    method AddToEntityLists(role: Role)
      modifies store
      ensures Applied(old(store.grants), store.grants, user,
          ListAssignments(Granted(role, AnEntityList), project.entityLists))
    {
      ghost var perms := Granted(role, AnEntityList);
      for i := 0 to |project.entityLists|
        invariant Applied(old(store.grants), store.grants, user, ListAssignments(perms, project.entityLists[..i]))
      {
        ghost var g := store.grants;
        assert project.entityLists[..i + 1][..i] == project.entityLists[..i];
        store.Add(role, user, Obj(AnEntityList, project.entityLists[i]));
        OneMore(old(store.grants), g, user, ListAssignments(perms, project.entityLists[..i]),
                Obj(AnEntityList, project.entityLists[i]), perms);
      }
      assert project.entityLists[..|project.entityLists|] == project.entityLists;
    }

    method RemoveUser()
      modifies store
      ensures Applied(old(store.grants), store.grants, user, if role.None? then map[] else Removed(project))
    {
      if role.Some? {
        ghost var g0 := store.grants;
        RemoveXFormPermissions();
        ghost var g1 := store.grants;
        RemoveDataViewPermissions();
        ghost var g2 := store.grants;
        RemoveEntityListPermissions();
        ghost var g3 := store.grants;
        store.RemoveObjPermissions(user, Obj(AProject, project.id));
        InTurn(g0, g1, g2, user, FormRemovals(project.forms), DataViewRemovals(project.dataViews));
        InTurn(g0, g2, g3, user, FormRemovals(project.forms) + DataViewRemovals(project.dataViews),
               ListAssignments({}, project.entityLists));
        ghost var all := FormRemovals(project.forms) + DataViewRemovals(project.dataViews)
            + ListAssignments({}, project.entityLists);
        OneMore(g0, g3, user, all, Obj(AProject, project.id), {});
        assert all[Obj(AProject, project.id) := {}] == Removed(project);
      }
    }

    method RemoveXFormPermissions()
      modifies store
      ensures Applied(old(store.grants), store.grants, user, FormRemovals(project.forms))
    {
      for i := 0 to |project.forms|
        invariant Applied(old(store.grants), store.grants, user, FormRemovals(project.forms[..i]))
      {
        var form := project.forms[i];
        assert project.forms[..i + 1][..i] == project.forms[..i];
        ghost var given := FormRemovals(project.forms[..i]);
        ghost var g := store.grants;
        store.RemoveObjPermissions(user, Obj(AnXForm, form.id));
        OneMore(old(store.grants), g, user, given, Obj(AnXForm, form.id), {});
        g, given := store.grants, given[Obj(AnXForm, form.id) := {}];
        if form.merged {
          store.RemoveObjPermissions(user, Obj(AMergedXForm, form.id));
          OneMore(old(store.grants), g, user, given, Obj(AMergedXForm, form.id), {});
        }
      }
      assert project.forms[..|project.forms|] == project.forms;
    }

    method RemoveDataViewPermissions()
      modifies store
      ensures Applied(old(store.grants), store.grants, user, DataViewRemovals(project.dataViews))
    {
      for i := 0 to |project.dataViews|
        invariant Applied(old(store.grants), store.grants, user, DataViewRemovals(project.dataViews[..i]))
      {
        var form := project.dataViews[i].form;
        assert project.dataViews[..i + 1][..i] == project.dataViews[..i];
        ghost var g := store.grants;
        store.RemoveObjPermissions(user, Obj(AnXForm, form));
        OneMore(old(store.grants), g, user, DataViewRemovals(project.dataViews[..i]), Obj(AnXForm, form), {});
      }
      assert project.dataViews[..|project.dataViews|] == project.dataViews;
    }

    method RemoveEntityListPermissions()
      modifies store
      ensures Applied(old(store.grants), store.grants, user, ListAssignments({}, project.entityLists))
    {
      for i := 0 to |project.entityLists|
        invariant Applied(old(store.grants), store.grants, user, ListAssignments({}, project.entityLists[..i]))
      {
        assert project.entityLists[..i + 1][..i] == project.entityLists[..i];
        ghost var g := store.grants;
        store.RemoveObjPermissions(user, Obj(AnEntityList, project.entityLists[i]));
        OneMore(old(store.grants), g, user, ListAssignments({}, project.entityLists[..i]),
                Obj(AnEntityList, project.entityLists[i]), {});
      }
      assert project.entityLists[..|project.entityLists|] == project.entityLists;
    }
  }

  // ---------------------------------------------------------------- who has what afterwards

  ghost predicate DistinctForms(forms: seq<ProjectForm>) {
    forall i, j :: 0 <= i < j < |forms| ==> forms[i].id != forms[j].id
  }

  predicate FormIn(forms: seq<ProjectForm>, id: nat, merged: bool) {
    exists i :: 0 <= i < |forms| && forms[i].id == id && (merged ==> forms[i].merged)
  }

  predicate ViewIn(views: seq<DataView>, id: nat, matching: bool) {
    exists i :: 0 <= i < |views| && views[i].form == id && (matching ==> views[i].matchesParent)
  }

  /** The objects a share reaches, and those a removal reaches, which include every data view's form. */
  predicate Reached(p: Project, o: Obj, removal: bool) {
    match o.class_
    case AProject => o.id == p.id
    case AnXForm => FormIn(p.forms, o.id, false) || ViewIn(p.dataViews, o.id, !removal)
    case AMergedXForm => FormIn(p.forms, o.id, true)
    case AnEntityList => o.id in p.entityLists
    case _ => false
  }

  lemma {:induction false} FormsReached(role: Role, forms: seq<ProjectForm>, o: Obj)
    ensures o in FormAssignments(role, forms) <==> (o.class_.AnXForm? && FormIn(forms, o.id, false))
                                                   || (o.class_.AMergedXForm? && FormIn(forms, o.id, true))
    ensures o in FormAssignments(role, forms) && o.class_.AMergedXForm? ==>
              FormAssignments(role, forms)[o] == Granted(role, AMergedXForm)
    ensures o in FormRemovals(forms) <==> o in FormAssignments(role, forms)
    ensures o in FormRemovals(forms) ==> FormRemovals(forms)[o] == {}
    decreases |forms|
  {
    if forms != [] {
      var n := |forms| - 1;
      FormsReached(role, forms[..n], o);
      assert forms == forms[..n] + [forms[n]];
    }
  }

  lemma {:induction false} FormGets(role: Role, forms: seq<ProjectForm>, i: nat)
    requires DistinctForms(forms) && i < |forms|
    ensures var o := Obj(AnXForm, forms[i].id);
            o in FormAssignments(role, forms)
                && FormAssignments(role, forms)[o] == Granted(FormRole(role, forms[i]), AnXForm)
    decreases |forms|
  {
    var n := |forms| - 1;
    if i < n {
      FormGets(role, forms[..n], i);
    }
  }

  lemma {:induction false} ViewsReached(role: Role, views: seq<DataView>, o: Obj)
    ensures o in DataViewAssignments(role, views) <==> o.class_.AnXForm? && ViewIn(views, o.id, true)
    ensures o in DataViewAssignments(role, views) ==> DataViewAssignments(role, views)[o] == Granted(role, AnXForm)
    ensures o in DataViewRemovals(views) <==> o.class_.AnXForm? && ViewIn(views, o.id, false)
    ensures o in DataViewRemovals(views) ==> DataViewRemovals(views)[o] == {}
    decreases |views|
  {
    if views != [] {
      var n := |views| - 1;
      ViewsReached(role, views[..n], o);
    }
  }

  lemma {:induction false} ListsReached(perms: set<Perm>, lists: seq<nat>, o: Obj)
    ensures o in ListAssignments(perms, lists) <==> o.class_.AnEntityList? && o.id in lists
    ensures o in ListAssignments(perms, lists) ==> ListAssignments(perms, lists)[o] == perms
    decreases |lists|
  {
    if lists != [] {
      var n := |lists| - 1;
      ListsReached(perms, lists[..n], o);
      assert lists == lists[..n] + [lists[n]];
    }
  }

  /**
   A share reaches exactly the project, its forms, its merged forms, the forms of data views that match their parent
   and its entity lists, and grants there exactly the role's permissions for the object's class. Only a form that
   prescribes roles gets another role, and only when no data view matches it.
   */
  lemma SharedExactly(role: Role, p: Project, o: Obj)
    requires DistinctForms(p.forms)
    ensures o in Shared(role, p) <==> Reached(p, o, false)
    ensures forall i :: 0 <= i < |p.forms| && o == Obj(AnXForm, p.forms[i].id) && !ViewIn(p.dataViews, o.id, true) ==>
              Shared(role, p)[o] == Granted(FormRole(role, p.forms[i]), AnXForm)
    ensures Reached(p, o, false) && (o.class_.AnXForm? ==> ViewIn(p.dataViews, o.id, true)) ==>
              Shared(role, p)[o] == Granted(role, o.class_)
  {
    FormsReached(role, p.forms, o);
    ViewsReached(role, p.dataViews, o);
    ListsReached(Granted(role, AnEntityList), p.entityLists, o);
    forall i | 0 <= i < |p.forms| && o == Obj(AnXForm, p.forms[i].id) && !ViewIn(p.dataViews, o.id, true)
      ensures o in Shared(role, p) && Shared(role, p)[o] == Granted(FormRole(role, p.forms[i]), AnXForm)
    {
      FormGets(role, p.forms, i);
    }
  }

  /** Without prescribed roles, a share grants exactly the role's permissions everywhere it reaches. */
  lemma SharedPlainly(role: Role, p: Project, o: Obj)
    requires DistinctForms(p.forms) && Reached(p, o, false)
    requires IgnoresMeta(role) || forall i :: 0 <= i < |p.forms| ==> p.forms[i].meta.None?
    ensures o in Shared(role, p) && Shared(role, p)[o] == Granted(role, o.class_)
  {
    SharedExactly(role, p, o);
    if o.class_.AnXForm? && !ViewIn(p.dataViews, o.id, true) {
      var i :| 0 <= i < |p.forms| && p.forms[i].id == o.id;
      assert FormRole(role, p.forms[i]) == role;
    }
  }

  /** A removal leaves the user nothing on all it reaches, and it reaches all that any share reaches. */
  lemma RemovedExactly(p: Project, o: Obj)
    ensures o in Removed(p) <==> Reached(p, o, true)
    ensures o in Removed(p) ==> Removed(p)[o] == {}
    ensures Reached(p, o, false) ==> Reached(p, o, true)
  {
    FormsReached(Owner, p.forms, o);
    ViewsReached(Owner, p.dataViews, o);
    ListsReached({}, p.entityLists, o);
    if ViewIn(p.dataViews, o.id, true) {
      var i :| 0 <= i < |p.dataViews| && p.dataViews[i].form == o.id && p.dataViews[i].matchesParent;
      assert ViewIn(p.dataViews, o.id, false);
    }
  }

  /** Sharing and then removing: the user has nothing where the share reached, everyone else what they had. */
  lemma RemoveUndoesShare(a: set<Grant>, b: set<Grant>, c: set<Grant>, user: nat, role: Role, p: Project, u: nat,
      o: Obj)
    requires DistinctForms(p.forms)
    requires Applied(a, b, user, Shared(role, p)) && Applied(b, c, user, Removed(p))
    ensures u == user && Reached(p, o, true) ==> PermsAt(c, u, o) == {}
    ensures u != user || !Reached(p, o, true) ==> PermsAt(c, u, o) == PermsAt(a, u, o)
  {
    assert AppliedAt(a, b, user, Shared(role, p), u, o) && AppliedAt(b, c, user, Removed(p), u, o);
    SharedExactly(role, p, o);
    RemovedExactly(p, o);
  }
}
