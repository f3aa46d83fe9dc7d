/** Merging forms (onadata/libs/serializers/merged_xform_serializer.py): the tree of the fields all forms share. */
module MergedForm {
  import opened Common

  datatype Type = SelectOne | SelectMultiple | Other(name: string)

  datatype Choice = Choice(name: string, text: string)

  /** A form element; the options of a select are its choices, its children are not used. */
  datatype Node = Node(
    name: string, type_: Type, bind: bool, itemset: string, choices: set<Choice>,
    hasChildren: bool, children: seq<Node>)

  datatype Form = Form(children: seq<Node>, choices: map<string, set<Choice>>)

  datatype Error = FewerThanTwo | NoMatchingFields

  function PathOf(prefix: string, name: string): (path: string)
    ensures prefix <= path
  {
    if prefix == "" then name else prefix + "/" + name
  }

  predicate IsGroup(e: Node) {
    e.hasChildren && e.type_.Other?
  }

  // ---------------------------------------------------------------- fields

  type Field = (string, Type)

  predicate Counted(t: Type) {
    t.Other? ==> t.name != "" && t.name != "survey"
  }

  function Fields(elements: seq<Node>, prefix: string): set<Field> {
    if elements == [] then {} else FieldsOf(elements[0], prefix) + Fields(elements[1..], prefix)
  }

  function FieldsOf(e: Node, prefix: string): set<Field> {
    var path := PathOf(prefix, e.name);
    (if Counted(e.type_) then {(path, e.type_)} else {}) + if IsGroup(e) then Fields(e.children, path) else {}
  }

  /** The fields, with their types, of every form. */
  function CommonFields(forms: seq<Form>): set<Field>
    requires forms != []
  {
    set f | f in Fields(forms[0].children, "") && forall i | 0 <= i < |forms| :: f in Fields(forms[i].children, "")
  }

  function CommonPaths(forms: seq<Form>): set<string>
    requires forms != []
  {
    set f | f in CommonFields(forms) :: f.0
  }

  // ---------------------------------------------------------------- the elements that stay

  /** Without narrowing the paths on the way down. */
  function Keep(elements: seq<Node>, paths: set<string>, prefix: string): seq<Node> {
    if elements == [] then [] else KeepOne(elements[0], paths, prefix) + Keep(elements[1..], paths, prefix)
  }

  function KeepOne(e: Node, paths: set<string>, prefix: string): seq<Node> {
    var path := PathOf(prefix, e.name);
    if path !in paths then []
    else if !IsGroup(e) then [e]
    else
      var kept := Keep(e.children, paths, path);
      if kept == [] then [] else [e.(children := kept)]
  }

  /** _get_elements: the recursive call gets the paths that start with the group's, as text. */
  method GetElements(elements: seq<Node>, intersect: set<string>, parentPrefix: string) returns (newElements: seq<Node>)
    ensures newElements == Keep(elements, intersect, parentPrefix)
    decreases elements
  {
    newElements := [];
    for i := 0 to |elements|
      invariant newElements + Keep(elements[i..], intersect, parentPrefix) == Keep(elements, intersect, parentPrefix)
    {
      var element := elements[i];
      KeepStep(newElements, elements, i, intersect, parentPrefix);
      var name := PathOf(parentPrefix, element.name);
      ghost var before := newElements;
      if name in intersect {
        var k := element;
        if IsGroup(element) {
          var narrowed := set p | p in intersect && name <= p;
          var children := GetElements(element.children, narrowed, name);
          NarrowingIsIrrelevant(element.children, narrowed, intersect, name, name);
          if children == [] {
            assert before + [] == before;
            continue;
          }
          k := element.(children := children);
        }
        newElements := newElements + [k];
      } else {
        assert before + [] == before;
      }
    }
  }

  lemma KeepStep(before: seq<Node>, elements: seq<Node>, i: nat, paths: set<string>, prefix: string)
    requires i < |elements|
    ensures before + Keep(elements[i..], paths, prefix)
         == before + KeepOne(elements[i], paths, prefix) + Keep(elements[i + 1..], paths, prefix)
  {}

  /** Paths that do not start with the group's path never matter below the group. */
  lemma {:induction false} NarrowingIsIrrelevant(elements: seq<Node>, some: set<string>, all: set<string>,
      base: string, prefix: string)
    requires base <= prefix
    requires forall p :: base <= p ==> (p in some <==> p in all)
    ensures Keep(elements, some, prefix) == Keep(elements, all, prefix)
    decreases elements
  {
    if elements != [] {
      var e := elements[0];
      var path := PathOf(prefix, e.name);
      assert base <= path;
      if IsGroup(e) {
        NarrowingIsIrrelevant(e.children, some, all, base, path);
      }
      NarrowingIsIrrelevant(elements[1..], some, all, base, prefix);
    }
  }

  // ---------------------------------------------------------------- which fields stay

  /** A kept element was in the tree, and its path is common. */
  lemma {:induction false} KeptFields(elements: seq<Node>, paths: set<string>, prefix: string, f: Field)
    requires f in Fields(Keep(elements, paths, prefix), prefix)
    ensures f in Fields(elements, prefix) && f.0 in paths
    decreases elements
  {
    var e, rest := elements[0], elements[1..];
    FieldsAppend(KeepOne(e, paths, prefix), Keep(rest, paths, prefix), prefix);
    if f in Fields(Keep(rest, paths, prefix), prefix) {
      KeptFields(rest, paths, prefix, f);
    } else {
      KeptOneFields(e, paths, prefix, f);
    }
  }

  lemma {:induction false} KeptOneFields(e: Node, paths: set<string>, prefix: string, f: Field)
    requires f in Fields(KeepOne(e, paths, prefix), prefix)
    ensures f in FieldsOf(e, prefix) && f.0 in paths
    decreases e
  {
    var path, kept := PathOf(prefix, e.name), KeepOne(e, paths, prefix);
    assert kept[1..] == [] && f in FieldsOf(kept[0], prefix);
    if IsGroup(e) && f in Fields(kept[0].children, path) {
      KeptFields(e.children, paths, path, f);
    }
  }

  lemma {:induction false} FieldsAppend(xs: seq<Node>, ys: seq<Node>, prefix: string)
    ensures Fields(xs + ys, prefix) == Fields(xs, prefix) + Fields(ys, prefix)
  {
    var all := xs + ys;
    if xs == [] {
      assert all == ys;
    } else {
      assert all[0] == xs[0] && all[1..] == xs[1..] + ys;
      FieldsAppend(xs[1..], ys, prefix);
    }
  }

  // ---------------------------------------------------------------- names in a published form

  ghost predicate DistinctNames(children: seq<Node>) {
    forall i, j :: 0 <= i < j < |children| ==> children[i].name != children[j].name
  }

  predicate GoodName(name: string) {
    name != "" && '/' !in name
  }

  /** At every level the names differ and are XML names, as a published form guarantees. */
  ghost predicate WellNamed(elements: seq<Node>) {
    && DistinctNames(elements)
    && forall i :: 0 <= i < |elements| ==> WellNamedBelow(elements[i])
  }

  ghost predicate WellNamedBelow(e: Node) {
    GoodName(e.name) && (IsGroup(e) ==> WellNamed(e.children))
  }

  /** What follows an element's path in the path of one of its fields. */
  predicate Follows(path: string, field: string) {
    path <= field && (field == path || field[|path|] == '/')
  }

  lemma {:induction false} FieldFollows(e: Node, prefix: string, f: Field)
    requires WellNamedBelow(e) && f in FieldsOf(e, prefix)
    ensures Follows(PathOf(prefix, e.name), f.0)
    ensures f.0 == PathOf(prefix, e.name) ==> f.1 == e.type_
    decreases e
  {
    var path := PathOf(prefix, e.name);
    if IsGroup(e) && f in Fields(e.children, path) {
      var i := FieldOfElement(e.children, path, f);
      FieldFollows(e.children[i], path, f);
    }
  }

  /** A field belongs to one of the elements. */
  lemma {:induction false} FieldOfElement(elements: seq<Node>, prefix: string, f: Field) returns (i: nat)
    requires f in Fields(elements, prefix)
    ensures i < |elements| && f in FieldsOf(elements[i], prefix)
    decreases elements
  {
    if f in FieldsOf(elements[0], prefix) {
      i := 0;
    } else {
      i := FieldOfElement(elements[1..], prefix, f);
      i := i + 1;
    }
  }

  /** The name after the prefix is read off a path. */
  lemma SameName(prefix: string, a: string, b: string, field: string)
    requires GoodName(a) && GoodName(b) && Follows(PathOf(prefix, a), field) && Follows(PathOf(prefix, b), field)
    ensures a == b
  {
    var n := if prefix == "" then 0 else |prefix| + 1;
    assert PathOf(prefix, a)[n..] == a && PathOf(prefix, b)[n..] == b;
    NotShorter(field[n..], a, b);
    NotShorter(field[n..], b, a);
    assert a == field[n..][..|a|] && b == field[n..][..|b|];
  }

  lemma NotShorter(rest: string, a: string, b: string)
    requires Follows(a, rest) && b <= rest && '/' !in b
    ensures |a| >= |b|
  {}

  /** With such names a path has one type: two fields with one path are the same field. */
  lemma {:induction false} OneTypePerPath(elements: seq<Node>, prefix: string, f: Field, g: Field)
    requires WellNamed(elements) && f in Fields(elements, prefix) && g in Fields(elements, prefix) && f.0 == g.0
    ensures f == g
    decreases elements
  {
    var i := FieldOfElement(elements, prefix, f);
    var j := FieldOfElement(elements, prefix, g);
    FieldFollows(elements[i], prefix, f);
    FieldFollows(elements[j], prefix, g);
    SameName(prefix, elements[i].name, elements[j].name, f.0);
    var e := elements[i];
    var path := PathOf(prefix, e.name);
    if f.0 != path {
      assert e == elements[j] && IsGroup(e);
      OneTypePerPath(e.children, path, f, g);
    }
  }

  /** Every kept element has a path and a type found in all forms. */
  lemma KeptFieldsAreCommon(forms: seq<Form>, f: Field, i: nat)
    requires i < |forms| && WellNamed(forms[0].children)
    requires f in Fields(Keep(forms[0].children, CommonPaths(forms), ""), "")
    ensures f in Fields(forms[i].children, "")
  {
    KeptFields(forms[0].children, CommonPaths(forms), "", f);
    var g :| g in CommonFields(forms) && g.0 == f.0;
    OneTypePerPath(forms[0].children, "", f, g);
  }

  lemma {:induction false} KeptNames(elements: seq<Node>, paths: set<string>, prefix: string)
    requires DistinctNames(elements)
    ensures DistinctNames(Keep(elements, paths, prefix))
    ensures forall e :: e in Keep(elements, paths, prefix) ==>
        exists i :: 0 <= i < |elements| && elements[i].name == e.name
    decreases elements
  {
    if elements != [] {
      var rest := elements[1..];
      KeptNames(rest, paths, prefix);
      forall e | e in Keep(elements, paths, prefix)
        ensures exists i :: 0 <= i < |elements| && elements[i].name == e.name
      {
        if e in KeepOne(elements[0], paths, prefix) {
          assert elements[0].name == e.name;
        } else {
          var i :| 0 <= i < |rest| && rest[i].name == e.name;
          assert elements[i + 1].name == e.name;
        }
      }
      forall k | 0 <= k < |Keep(rest, paths, prefix)|
        ensures Keep(rest, paths, prefix)[k].name != elements[0].name
      {
        var i :| 0 <= i < |rest| && rest[i].name == Keep(rest, paths, prefix)[k].name;
        assert elements[i + 1] == rest[i];
      }
    }
  }

  // ---------------------------------------------------------------- the tree by its questions

  /** An element on the way to a question, without what is below it. */
  datatype Head = Head(path: string, node: Node)

  /** For each question, in order, the elements from the top down to it. */
  function Trails(elements: seq<Node>, prefix: string, above: seq<Head>): seq<seq<Head>> {
    if elements == [] then [] else TrailsOf(elements[0], prefix, above) + Trails(elements[1..], prefix, above)
  }

  function TrailsOf(e: Node, prefix: string, above: seq<Head>): seq<seq<Head>> {
    var path := PathOf(prefix, e.name);
    var here := above + [Head(path, e.(children := []))];
    if IsGroup(e) then Trails(e.children, path, here) else [here]
  }

  predicate AllCommon(trail: seq<Head>, paths: set<string>) {
    forall i | 0 <= i < |trail| :: trail[i].path in paths
  }

  function CommonTrails(trails: seq<seq<Head>>, paths: set<string>): seq<seq<Head>> {
    if trails == [] then []
    else (if AllCommon(trails[0], paths) then [trails[0]] else []) + CommonTrails(trails[1..], paths)
  }

  predicate NoEmptyGroups(elements: seq<Node>) {
    forall i | 0 <= i < |elements| :: NotEmpty(elements[i])
  }

  predicate NotEmpty(e: Node) {
    IsGroup(e) ==> e.children != [] && NoEmptyGroups(e.children)
  }

  lemma {:induction false} CommonTrailsAppend(xs: seq<seq<Head>>, ys: seq<seq<Head>>, paths: set<string>)
    ensures CommonTrails(xs + ys, paths) == CommonTrails(xs, paths) + CommonTrails(ys, paths)
  {
    var all := xs + ys;
    if xs == [] {
      assert all == ys && [] + CommonTrails(ys, paths) == CommonTrails(ys, paths);
    } else {
      var first := if AllCommon(xs[0], paths) then [xs[0]] else [];
      assert all[0] == xs[0] && all[1..] == xs[1..] + ys;
      CommonTrailsAppend(xs[1..], ys, paths);
      assert first + (CommonTrails(xs[1..], paths) + CommonTrails(ys, paths))
          == (first + CommonTrails(xs[1..], paths)) + CommonTrails(ys, paths);
    }
  }

  lemma {:induction false} TrailsAppend(xs: seq<Node>, ys: seq<Node>, prefix: string, above: seq<Head>)
    ensures Trails(xs + ys, prefix, above) == Trails(xs, prefix, above) + Trails(ys, prefix, above)
  {
    var all := xs + ys;
    if xs == [] {
      assert all == ys && [] + Trails(ys, prefix, above) == Trails(ys, prefix, above);
    } else {
      assert all[0] == xs[0] && all[1..] == xs[1..] + ys;
      TrailsAppend(xs[1..], ys, prefix, above);
      assert TrailsOf(xs[0], prefix, above) + (Trails(xs[1..], prefix, above) + Trails(ys, prefix, above))
          == (TrailsOf(xs[0], prefix, above) + Trails(xs[1..], prefix, above)) + Trails(ys, prefix, above);
    }
  }

  /** Below a path that is not common, nothing stays. */
  lemma {:induction false} NothingBelow(elements: seq<Node>, prefix: string, above: seq<Head>, paths: set<string>)
    requires !AllCommon(above, paths)
    ensures CommonTrails(Trails(elements, prefix, above), paths) == []
    decreases elements
  {
    if elements != [] {
      var e := elements[0];
      var path := PathOf(prefix, e.name);
      var here := above + [Head(path, e.(children := []))];
      var i :| 0 <= i < |above| && above[i].path !in paths;
      assert here[i].path !in paths;
      if IsGroup(e) {
        NothingBelow(e.children, path, here, paths);
      } else {
        assert [here][1..] == [];
      }
      NothingBelow(elements[1..], prefix, above, paths);
      CommonTrailsAppend(TrailsOf(e, prefix, above), Trails(elements[1..], prefix, above), paths);
    }
  }

  /**
   The merged tree has, in the first form's order, exactly the questions whose own path and whose groups' paths are
   all common; a group stays exactly when such a question is below it.
   */
  lemma {:induction false} QuestionsKeptExactly(elements: seq<Node>, paths: set<string>, prefix: string,
      above: seq<Head>)
    requires AllCommon(above, paths)
    ensures Trails(Keep(elements, paths, prefix), prefix, above) == CommonTrails(Trails(elements, prefix, above), paths)
    ensures NoEmptyGroups(Keep(elements, paths, prefix))
    decreases elements
  {
    if elements != [] {
      var e, rest := elements[0], elements[1..];
      OneKeptExactly(e, paths, prefix, above);
      QuestionsKeptExactly(rest, paths, prefix, above);
      TrailsAppend(KeepOne(e, paths, prefix), Keep(rest, paths, prefix), prefix, above);
      CommonTrailsAppend(TrailsOf(e, prefix, above), Trails(rest, prefix, above), paths);
    }
  }

  lemma {:induction false} OneKeptExactly(e: Node, paths: set<string>, prefix: string, above: seq<Head>)
    requires AllCommon(above, paths)
    ensures Trails(KeepOne(e, paths, prefix), prefix, above) == CommonTrails(TrailsOf(e, prefix, above), paths)
    ensures NoEmptyGroups(KeepOne(e, paths, prefix))
    decreases e
  {
    var path, kept := PathOf(prefix, e.name), KeepOne(e, paths, prefix);
    var here := above + [Head(path, e.(children := []))];
    assert here[|above|].path == path;
    assert AllCommon(here, paths) <==> path in paths;
    assert [here][1..] == [] && CommonTrails([here], paths) == if path in paths then [here] else [];
    if IsGroup(e) {
      if path in paths {
        QuestionsKeptExactly(e.children, paths, path, here);
      } else {
        NothingBelow(e.children, path, here, paths);
      }
    }
    if kept != [] {
      assert kept[1..] == [] && TrailsOf(kept[0], prefix, above) + [] == TrailsOf(kept[0], prefix, above);
      assert Trails(kept, prefix, above) == TrailsOf(kept[0], prefix, above);
    }
  }

  // ---------------------------------------------------------------- the merged survey

  predicate IsSelect(e: Node) {
    !e.type_.Other?
  }

  /** The options of the first element with a name, or none. */
  function Offered(name: string, children: seq<Node>): set<Choice> {
    if children == [] then {}
    else if children[0].name == name then children[0].choices
    else Offered(name, children[1..])
  }

  function AllOffered(name: string, forms: seq<Form>): set<Choice> {
    if forms == [] then {} else AllOffered(name, forms[..|forms| - 1]) + Offered(name, forms[|forms| - 1].children)
  }

  /** One top-level element; the first form's own elements are the ones being finished. */
  function Finished(children: seq<Node>, i: nat, others: seq<Form>): Node
    requires i < |children|
  {
    var e := children[i].(bind := false);
    if IsSelect(e) then e.(choices := Offered(e.name, children) + AllOffered(e.name, others)) else e
  }

  function FinishAll(children: seq<Node>, i: nat, others: seq<Form>): (r: seq<Node>)
    requires i <= |children|
    ensures |r| == |children|
    decreases |children| - i
  {
    if i == |children| then children else FinishAll(children[i := Finished(children, i, others)], i + 1, others)
  }

  /** The lists of options, by their names, after the first elements are finished. */
  function ChoiceLists(choices: map<string, set<Choice>>, finished: seq<Node>): map<string, set<Choice>> {
    if finished == [] then choices
    else
      var e, before := finished[|finished| - 1], ChoiceLists(choices, finished[..|finished| - 1]);
      if IsSelect(e) then before[e.itemset := e.choices] else before
  }

  predicate OnlyMeta(children: seq<Node>) {
    forall i | 0 <= i < |children| :: children[i].name == "meta"
  }

  function Merged(forms: seq<Form>): Result<Form, Error> {
    if |forms| < 2 then Err(FewerThanTwo)
    else
      var kept := Keep(forms[0].children, CommonPaths(forms), "");
      if OnlyMeta(kept) then Err(NoMatchingFields)
      else
        var children := FinishAll(kept, 0, forms[1..]);
        Ok(Form(children, ChoiceLists(forms[0].choices, children)))
  }

  method GetMergedXFormSurvey(forms: seq<Form>) returns (merged: Result<Form, Error>)
    ensures merged == Merged(forms)
  {
    if |forms| < 2 {
      return Err(FewerThanTwo);
    }
    var kept := GetElements(forms[0].children, CommonPaths(forms), "");
    var isEmpty, children, choices := FinishElements(kept, forms[0].choices, forms[1..]);
    merged := if isEmpty then Err(NoMatchingFields) else Ok(Form(children, choices));
  }

  /** The loop over the top-level elements. */
  method FinishElements(kept: seq<Node>, lists: map<string, set<Choice>>, others: seq<Form>)
    returns (isEmpty: bool, children: seq<Node>, choices: map<string, set<Choice>>)
    ensures isEmpty == OnlyMeta(kept) && children == FinishAll(kept, 0, others)
        && choices == ChoiceLists(lists, children)
  {
    children, choices, isEmpty := kept, lists, true;
    for i := 0 to |kept|
      invariant |children| == |kept| && children[i..] == kept[i..]
      invariant isEmpty == OnlyMeta(kept[..i])
      invariant FinishAll(children, i, others) == FinishAll(kept, 0, others)
      invariant choices == ChoiceLists(lists, children[..i])
    {
      assert children[i] == children[i..][0] == kept[i];
      if children[i].name != "meta" && isEmpty {
        isEmpty := false;
      }
      var child := children[i].(bind := false);
      if IsSelect(child) {
        var options := MergeOptions(child.name, children, others);
        child := child.(choices := options);
        choices := choices[child.itemset := options];
      }
      ElementStep(kept, children, child, i, others, lists);
      children := children[i := child];
    }
    assert kept[..|kept|] == kept && children[..|kept|] == children;
  }

  lemma ElementStep(kept: seq<Node>, children: seq<Node>, child: Node, i: nat, others: seq<Form>,
      lists: map<string, set<Choice>>)
    requires |children| == |kept| && i < |kept| && child == Finished(children, i, others) && children[i..] == kept[i..]
    ensures children[i := child][i + 1..] == kept[i + 1..]
    ensures OnlyMeta(kept[..i + 1]) == (OnlyMeta(kept[..i]) && kept[i].name == "meta")
    ensures FinishAll(children[i := child], i + 1, others) == FinishAll(children, i, others)
    ensures ChoiceLists(lists, children[i := child][..i + 1])
         == if IsSelect(child) then ChoiceLists(lists, children[..i])[child.itemset := child.choices]
            else ChoiceLists(lists, children[..i])
  {
    var next := children[i := child];
    assert next[i + 1..] == children[i..][1..] && kept[i + 1..] == kept[i..][1..];
    assert next[..i + 1][..i] == children[..i];
    assert kept[..i + 1] == kept[..i] + [kept[i]];
  }

  method MergeOptions(name: string, children: seq<Node>, others: seq<Form>) returns (options: set<Choice>)
    ensures options == Offered(name, children) + AllOffered(name, others)
  {
    options := Offered(name, children);
    for j := 0 to |others|
      invariant options == Offered(name, children) + AllOffered(name, others[..j])
    {
      options := options + Offered(name, others[j].children);
      assert others[..j + 1][..j] == others[..j];
    }
    assert others[..|others|] == others;
  }

  /** An option is offered by a form exactly when the form's element of that name has it. */
  lemma {:induction false} OfferedExactly(children: seq<Node>, i: nat)
    requires DistinctNames(children) && i < |children|
    ensures Offered(children[i].name, children) == children[i].choices
  {
    if i > 0 {
      OfferedExactly(children[1..], i - 1);
    }
  }

  lemma {:induction false} AllOfferedExactly(name: string, forms: seq<Form>, c: Choice)
    ensures c in AllOffered(name, forms) <==> exists i :: 0 <= i < |forms| && c in Offered(name, forms[i].children)
    decreases |forms|
  {
    if forms != [] {
      var n := |forms| - 1;
      AllOfferedExactly(name, forms[..n], c);
    }
  }

  lemma {:induction false} FinishedAt(children: seq<Node>, i: nat, others: seq<Form>, k: nat)
    requires DistinctNames(children) && i <= |children| && k < |children|
    ensures FinishAll(children, i, others)[k] == if k < i then children[k] else
              var e := children[k].(bind := false);
              if IsSelect(e) then e.(choices := children[k].choices + AllOffered(e.name, others)) else e
    decreases |children| - i
  {
    if i < |children| {
      OfferedExactly(children, i);
      var next := children[i := Finished(children, i, others)];
      assert forall j :: 0 <= j < |children| ==> next[j].name == children[j].name;
      FinishedAt(next, i + 1, others, k);
    }
  }

  /**
   A merged form's top-level elements are the kept elements in order, without their binds; a select offers exactly
   the options that some form's element of that name offers.
   */
  lemma MergedElement(forms: seq<Form>, k: nat)
    requires Merged(forms).Ok? && DistinctNames(forms[0].children)
    requires k < |Keep(forms[0].children, CommonPaths(forms), "")|
    ensures var kept, merged := Keep(forms[0].children, CommonPaths(forms), "")[k], Merged(forms).value.children;
            && |merged| == |Keep(forms[0].children, CommonPaths(forms), "")|
            && merged[k].(choices := kept.choices) == kept.(bind := false)
            && (!IsSelect(kept) ==> merged[k].choices == kept.choices)
            && (IsSelect(kept) ==>
                  forall c :: c in merged[k].choices <==>
                    c in kept.choices || exists i :: 1 <= i < |forms| && c in Offered(kept.name, forms[i].children))
  {
    var kept := Keep(forms[0].children, CommonPaths(forms), "");
    KeptNames(forms[0].children, CommonPaths(forms), "");
    FinishedAt(kept, 0, forms[1..], k);
    forall c
      ensures c in AllOffered(kept[k].name, forms[1..])
         <==> exists i :: 1 <= i < |forms| && c in Offered(kept[k].name, forms[i].children)
    {
      AllOfferedExactly(kept[k].name, forms[1..], c);
      if i :| 1 <= i < |forms| && c in Offered(kept[k].name, forms[i].children) {
        assert forms[1..][i - 1] == forms[i];
      }
    }
  }

  /** An element at some depth. */
  predicate Inside(e: Node, elements: seq<Node>)
    decreases elements
  {
    exists i | 0 <= i < |elements| :: e == elements[i] || Inside(e, elements[i].children)
  }

  lemma {:induction false} KeptSelects(elements: seq<Node>, paths: set<string>, prefix: string, e: Node)
    requires Inside(e, Keep(elements, paths, prefix)) && IsSelect(e)
    ensures Inside(e, elements)
    decreases elements
  {
    var kept := Keep(elements, paths, prefix);
    var i :| 0 <= i < |kept| && (e == kept[i] || Inside(e, kept[i].children));
    var first, path := KeepOne(elements[0], paths, prefix), PathOf(prefix, elements[0].name);
    if i < |first| {
      assert kept[i] == first[0];
      if IsGroup(elements[0]) && Inside(e, first[0].children) {
        KeptSelects(elements[0].children, paths, path, e);
      }
      assert e == elements[0] || Inside(e, elements[0].children);
    } else {
      var rest := Keep(elements[1..], paths, prefix);
      assert kept[i] == rest[i - |first|];
      KeptSelects(elements[1..], paths, prefix, e);
      var j :| 0 <= j < |elements[1..]| && (e == elements[1..][j] || Inside(e, elements[1..][j].children));
      assert elements[1..][j] == elements[j + 1];
    }
  }

  /** Below the top level options are not merged: a select in a group keeps the first form's, whatever others offer. */
  lemma NestedSelectsKeepOptions(forms: seq<Form>, k: nat, e: Node)
    requires Merged(forms).Ok? && DistinctNames(forms[0].children)
    requires k < |Merged(forms).value.children| && Inside(e, Merged(forms).value.children[k].children) && IsSelect(e)
    ensures Inside(e, forms[0].children)
  {
    var kept := Keep(forms[0].children, CommonPaths(forms), "");
    MergedElement(forms, k);
    assert Inside(e, kept[k].children);
    assert Inside(e, kept);
    KeptSelects(forms[0].children, CommonPaths(forms), "", e);
  }

  /** Merging is refused exactly for fewer than two forms, or when nothing but "meta" is common at the top. */
  lemma MergesExactly(forms: seq<Form>)
    ensures Merged(forms).Ok? <==>
              |forms| >= 2 && exists t: seq<Head> ::
                  t in CommonTrails(Trails(forms[0].children, "", []), CommonPaths(forms))
                                          && t != [] && t[0].node.name != "meta"
  {
    if |forms| >= 2 {
      var paths := CommonPaths(forms);
      var kept := Keep(forms[0].children, paths, "");
      QuestionsKeptExactly(forms[0].children, paths, "", []);
      if i :| 0 <= i < |kept| && kept[i].name != "meta" {
        TopHasTrail(kept, i, "", []);
      }
      forall t: seq<Head> | t in Trails(kept, "", []) && t != [] && t[0].node.name != "meta"
        ensures !OnlyMeta(kept)
      {
        TrailHasTop(kept, "", [], t);
      }
    }
  }

  /** Below every element of a tree without empty groups there is a question. */
  lemma {:induction false} TopHasTrail(elements: seq<Node>, i: nat, prefix: string, above: seq<Head>)
    requires NoEmptyGroups(elements) && i < |elements|
    ensures exists t: seq<Head> :: t in Trails(elements, prefix, above) && |t| > |above| && t[..|above|] == above
                        && t[|above|].node.name == elements[i].name
    decreases elements, 1
  {
    if i == 0 {
      OneHasTrail(elements[0], prefix, above);
    } else {
      TopHasTrail(elements[1..], i - 1, prefix, above);
    }
  }

  lemma {:induction false} OneHasTrail(e: Node, prefix: string, above: seq<Head>)
    requires NotEmpty(e)
    ensures exists t: seq<Head> :: t in TrailsOf(e, prefix, above) && |t| > |above| && t[..|above|] == above
                        && t[|above|].node.name == e.name
    decreases e
  {
    var path := PathOf(prefix, e.name);
    var here := above + [Head(path, e.(children := []))];
    if IsGroup(e) {
      TopHasTrail(e.children, 0, path, here);
      var t :| t in Trails(e.children, path, here) && |t| > |here| && t[..|here|] == here;
      assert t[..|above|] == here[..|above|] == above && t[|above|] == here[|above|];
    } else {
      assert here in TrailsOf(e, prefix, above);
    }
  }

  lemma {:induction false} TrailHasTop(elements: seq<Node>, prefix: string, above: seq<Head>, t: seq<Head>)
    requires t in Trails(elements, prefix, above)
    ensures |t| > |above| && t[..|above|] == above
    ensures exists i :: 0 <= i < |elements| && elements[i].name == t[|above|].node.name
    decreases elements, 1
  {
    if t in TrailsOf(elements[0], prefix, above) {
      OneTrailHasTop(elements[0], prefix, above, t);
    } else {
      TrailHasTop(elements[1..], prefix, above, t);
      var i :| 0 <= i < |elements[1..]| && elements[1..][i].name == t[|above|].node.name;
      assert elements[i + 1].name == t[|above|].node.name;
    }
  }

  lemma {:induction false} OneTrailHasTop(e: Node, prefix: string, above: seq<Head>, t: seq<Head>)
    requires t in TrailsOf(e, prefix, above)
    ensures |t| > |above| && t[..|above|] == above && t[|above|].node.name == e.name
    decreases e
  {
    var path := PathOf(prefix, e.name);
    var here := above + [Head(path, e.(children := []))];
    if IsGroup(e) {
      TrailHasTop(e.children, path, here, t);
      assert t[..|above|] == here[..|above|] == above && t[|above|] == here[|above|];
    }
  }

  lemma {:induction false} FieldsUpdate(elements: seq<Node>, i: nat, e: Node, prefix: string)
    requires i < |elements| && FieldsOf(e, prefix) == FieldsOf(elements[i], prefix)
    ensures Fields(elements[i := e], prefix) == Fields(elements, prefix)
    decreases |elements|
  {
    var updated := elements[i := e];
    if i == 0 {
      assert updated[1..] == elements[1..];
    } else {
      assert updated[1..] == elements[1..][i - 1 := e];
      FieldsUpdate(elements[1..], i - 1, e, prefix);
    }
  }

  lemma {:induction false} FinishKeepsFields(children: seq<Node>, i: nat, others: seq<Form>)
    requires i <= |children|
    ensures Fields(FinishAll(children, i, others), "") == Fields(children, "")
    decreases |children| - i
  {
    if i < |children| {
      var e := Finished(children, i, others);
      assert FieldsOf(e, "") == FieldsOf(children[i], "");
      FieldsUpdate(children, i, e, "");
      FinishKeepsFields(children[i := e], i + 1, others);
    }
  }

  /** Every element of a merged form, at any depth, has a path and a type found in all merged forms. */
  lemma MergedFieldsAreCommon(forms: seq<Form>, f: Field, i: nat)
    requires Merged(forms).Ok? && i < |forms| && WellNamed(forms[0].children)
    requires f in Fields(Merged(forms).value.children, "")
    ensures f in Fields(forms[i].children, "")
  {
    FinishKeepsFields(Keep(forms[0].children, CommonPaths(forms), ""), 0, forms[1..]);
    KeptFieldsAreCommon(forms, f, i);
  }
}
