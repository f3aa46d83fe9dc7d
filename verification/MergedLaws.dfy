/**
 Merging forms, stated on chains of elements from the top of a tree down
 (onadata/libs/serializers/merged_xform_serializer.py).
 */
module MergedLaws {
  import opened Common
  import opened Text
  import opened MergedForm

  // ---------------------------------------------------------------- elements by the names that lead to them

  /** An element with elements below it: its children are not the options of a select. */
  predicate Descends(e: Node) {
    e.hasChildren && e.type_ != SelectOne && e.type_ != SelectMultiple
  }

  /** Elements, each among the children of the one before. */
  predicate Chain(elements: seq<Node>, chain: seq<Node>) {
    chain != [] && chain[0] in elements && forall i | 0 < i < |chain| :: BelowLast(chain, i)
  }

  predicate BelowLast(chain: seq<Node>, i: nat)
    requires 0 < i < |chain|
  {
    Descends(chain[i - 1]) && chain[i] in chain[i - 1].children
  }

  function Names(chain: seq<Node>): (names: seq<string>)
    ensures |names| == |chain| && forall i | 0 <= i < |chain| :: names[i] == chain[i].name
  {
    seq(|chain|, i requires 0 <= i < |chain| => chain[i].name)
  }

  /** An element of a type, reached by the names of a path. */
  ghost predicate Has(elements: seq<Node>, path: string, t: Type) {
    && t != Other("") && t != Other("survey")
    && exists chain: seq<Node> ::
      Chain(elements, chain) && Join(Names(chain), "/") == path && chain[|chain| - 1].type_ == t
  }

  /** The path of a chain below a prefix. */
  function Below(prefix: string, names: seq<string>): string {
    if prefix == "" then Join(names, "/") else prefix + ("/" + Join(names, "/"))
  }

  lemma BelowFirst(prefix: string, names: seq<string>)
    requires |names| > 1 && names[0] != ""
    ensures Below(prefix, names) == Below(PathOf(prefix, names[0]), names[1..])
  {
    var rest := Join(names[1..], "/");
    Associates(names[0], "/", rest);
    if prefix != "" {
      Associates(prefix, "/", names[0] + ("/" + rest));
      Associates(prefix + "/", names[0], "/" + rest);
    }
  }

  lemma BelowOne(prefix: string, name: string)
    ensures Below(prefix, [name]) == PathOf(prefix, name)
  {
    Associates(prefix, "/", name);
  }

  lemma ChainRest(elements: seq<Node>, chain: seq<Node>)
    requires Chain(elements, chain) && |chain| > 1
    ensures Descends(chain[0]) && Chain(chain[0].children, chain[1..]) && Names(chain)[1..] == Names(chain[1..])
  {
    var rest := chain[1..];
    forall i | 0 < i < |rest|
      ensures BelowLast(rest, i)
    {
      assert BelowLast(chain, i + 1);
    }
    assert BelowLast(chain, 1);
  }

  lemma ChainCons(elements: seq<Node>, e: Node, rest: seq<Node>)
    requires e in elements && Descends(e) && Chain(e.children, rest)
    ensures Chain(elements, [e] + rest) && Names([e] + rest) == [e.name] + Names(rest)
  {
    var chain := [e] + rest;
    forall i | 0 < i < |chain|
      ensures BelowLast(chain, i)
    {
      if i > 1 { assert BelowLast(rest, i - 1); }
    }
  }

  lemma {:induction false} FieldIn(elements: seq<Node>, prefix: string, e: Node)
    requires e in elements
    ensures FieldsOf(e, prefix) <= Fields(elements, prefix)
  {
    if e != elements[0] {
      FieldIn(elements[1..], prefix, e);
    }
  }

  lemma ElementWellNamed(elements: seq<Node>, e: Node)
    requires WellNamed(elements) && e in elements
    ensures e.name != "" && (Descends(e) ==> WellNamed(e.children))
  {
    var i :| 0 <= i < |elements| && elements[i] == e;
    assert WellNamedBelow(elements[i]);
  }

  lemma {:induction false} ChainIsField(elements: seq<Node>, prefix: string, chain: seq<Node>)
    requires WellNamed(elements) && Chain(elements, chain)
    requires var t := chain[|chain| - 1].type_; t != Other("") && t != Other("survey")
    ensures (Below(prefix, Names(chain)), chain[|chain| - 1].type_) in Fields(elements, prefix)
    decreases |chain|
  {
    var e := chain[0];
    ElementWellNamed(elements, e);
    if |chain| == 1 {
      assert Names(chain) == [e.name];
      FieldHere(elements, prefix, e);
    } else {
      ChainRest(elements, chain);
      BelowChain(prefix, chain);
      assert chain[1..][|chain| - 2] == chain[|chain| - 1];
      ChainIsField(e.children, PathOf(prefix, e.name), chain[1..]);
      FieldBelow(elements, prefix, e, (Below(prefix, Names(chain)), chain[|chain| - 1].type_));
    }
  }

  lemma FieldHere(elements: seq<Node>, prefix: string, e: Node)
    requires e in elements && e.type_ != Other("") && e.type_ != Other("survey")
    ensures (Below(prefix, [e.name]), e.type_) in Fields(elements, prefix)
  {
    FieldIn(elements, prefix, e);
    BelowOne(prefix, e.name);
  }

  lemma FieldBelow(elements: seq<Node>, prefix: string, e: Node, f: Field)
    requires e in elements && Descends(e) && f in Fields(e.children, PathOf(prefix, e.name))
    ensures f in Fields(elements, prefix)
  {
    FieldIn(elements, prefix, e);
  }

  lemma BelowChain(prefix: string, chain: seq<Node>)
    requires |chain| > 1 && chain[0].name != ""
    ensures Below(prefix, Names(chain)) == Below(PathOf(prefix, chain[0].name), Names(chain[1..]))
  {
    assert Names(chain)[1..] == Names(chain[1..]);
    BelowFirst(prefix, Names(chain));
  }

  lemma {:induction false} FieldHasChain(elements: seq<Node>, prefix: string, f: Field) returns (chain: seq<Node>)
    requires WellNamed(elements) && f in Fields(elements, prefix)
    ensures Chain(elements, chain) && f == (Below(prefix, Names(chain)), chain[|chain| - 1].type_)
    ensures f.1 != Other("") && f.1 != Other("survey")
    decreases elements
  {
    var n := FieldOfElement(elements, prefix, f);
    var e := elements[n];
    var path := PathOf(prefix, e.name);
    ElementWellNamed(elements, e);
    if IsGroup(e) && f in Fields(e.children, path) {
      var rest := FieldHasChain(e.children, path, f);
      chain := [e] + rest;
      ChainCons(elements, e, rest);
      BelowFirst(prefix, Names(chain));
      assert Names(chain)[1..] == Names(rest);
    } else {
      chain := [e];
      assert Names(chain) == [e.name];
      BelowOne(prefix, e.name);
    }
  }

  lemma FieldsExactly(elements: seq<Node>, path: string, t: Type)
    requires WellNamed(elements)
    ensures (path, t) in Fields(elements, "") <==> Has(elements, path, t)
  {
    if (path, t) in Fields(elements, "") {
      var chain := FieldHasChain(elements, "", (path, t));
    }
    if Has(elements, path, t) {
      var chain: seq<Node> :| Chain(elements, chain) && Join(Names(chain), "/") == path
          && chain[|chain| - 1].type_ == t;
      ChainIsField(elements, "", chain);
    }
  }

  ghost predicate AllWellNamed(forms: seq<Form>) {
    forall i | 0 <= i < |forms| :: WellNamed(forms[i].children)
  }

  ghost predicate InAll(forms: seq<Form>, path: string, t: Type) {
    forall i | 0 <= i < |forms| :: Has(forms[i].children, path, t)
  }

  /** In all forms an element of one type is reached by the path. */
  ghost predicate Shared(forms: seq<Form>, path: string) {
    exists t :: InAll(forms, path, t)
  }

  /** A path is common, groups' paths included, if and only if it leads to an element of one type in every form. */
  lemma CommonExactly(forms: seq<Form>, path: string)
    requires forms != [] && AllWellNamed(forms)
    ensures path in CommonPaths(forms) <==> Shared(forms, path)
  {
    forall i, t | 0 <= i < |forms|
      ensures (path, t) in Fields(forms[i].children, "") <==> Has(forms[i].children, path, t)
    {
      FieldsExactly(forms[i].children, path, t);
    }
    if path in CommonPaths(forms) {
      var f :| f in CommonFields(forms) && f.0 == path;
      assert forall i | 0 <= i < |forms| :: (path, f.1) in Fields(forms[i].children, "");
      assert InAll(forms, path, f.1);
    }
    if t :| InAll(forms, path, t) {
      assert forall i | 0 <= i < |forms| :: (path, t) in Fields(forms[i].children, "");
      assert (path, t) in CommonFields(forms);
    }
  }

  // ---------------------------------------------------------------- questions

  ghost predicate ChainTo(elements: seq<Node>, chain: seq<Node>, names: seq<string>, t: Type) {
    && Chain(elements, chain) && Names(chain) == names
    && !Descends(chain[|chain| - 1]) && chain[|chain| - 1].type_ == t
  }

  /** A question: an element of a type with nothing below it, under the names that lead to it. */
  ghost predicate Asks(elements: seq<Node>, names: seq<string>, t: Type) {
    exists chain :: ChainTo(elements, chain, names, t)
  }

  /** One of the elements, by its name, that is a question or leads to one. */
  ghost predicate AsksFirst(e: Node, names: seq<string>, t: Type) {
    && names != [] && e.name == names[0]
    && if |names| == 1 then !Descends(e) && e.type_ == t else Descends(e) && Asks(e.children, names[1..], t)
  }

  lemma AskedByFirst(elements: seq<Node>, names: seq<string>, t: Type) returns (e: Node)
    requires Asks(elements, names, t)
    ensures e in elements && AsksFirst(e, names, t)
  {
    var chain :| ChainTo(elements, chain, names, t);
    e := chain[0];
    if |chain| > 1 {
      ChainRest(elements, chain);
      assert chain[1..][|chain| - 2] == chain[|chain| - 1];
      assert ChainTo(e.children, chain[1..], names[1..], t);
    }
  }

  lemma FirstAsks(elements: seq<Node>, names: seq<string>, t: Type, e: Node)
    requires e in elements && AsksFirst(e, names, t)
    ensures Asks(elements, names, t)
  {
    if |names| == 1 {
      OneAsked(elements, e);
      assert names == [e.name];
    } else {
      MoreAsked(elements, e, names[1..], t);
      assert [e.name] + names[1..] == names;
    }
  }

  lemma MoreAsked(elements: seq<Node>, e: Node, names: seq<string>, t: Type)
    requires e in elements && Descends(e) && Asks(e.children, names, t)
    ensures Asks(elements, [e.name] + names, t)
  {
    var rest :| ChainTo(e.children, rest, names, t);
    ChainConsTo(elements, e, rest, names, t);
  }

  lemma OneAsked(elements: seq<Node>, e: Node)
    requires e in elements && !Descends(e)
    ensures Asks(elements, [e.name], e.type_)
  {
    assert Names([e]) == [e.name];
    assert ChainTo(elements, [e], [e.name], e.type_);
  }

  lemma ChainConsTo(elements: seq<Node>, e: Node, rest: seq<Node>, names: seq<string>, t: Type)
    requires e in elements && Descends(e) && ChainTo(e.children, rest, names, t)
    ensures ChainTo(elements, [e] + rest, [e.name] + names, t)
  {
    ChainCons(elements, e, rest);
    assert ([e] + rest)[|rest|] == rest[|rest| - 1];
  }

  lemma AsksStep(elements: seq<Node>, names: seq<string>, t: Type)
    ensures Asks(elements, names, t) <==> exists e :: e in elements && AsksFirst(e, names, t)
  {
    if Asks(elements, names, t) {
      var e := AskedByFirst(elements, names, t);
    }
    if e :| e in elements && AsksFirst(e, names, t) {
      FirstAsks(elements, names, t, e);
    }
  }

  /** Every name on the way leads to a common path. */
  ghost predicate CommonAlong(paths: set<string>, prefix: string, names: seq<string>) {
    forall n | 0 < n <= |names| :: Below(prefix, names[..n]) in paths
  }

  lemma CommonFirst(paths: set<string>, prefix: string, names: seq<string>)
    requires names != [] && names[0] != ""
    ensures CommonAlong(paths, prefix, names) <==>
              PathOf(prefix, names[0]) in paths && CommonAlong(paths, PathOf(prefix, names[0]), names[1..])
  {
    var path := PathOf(prefix, names[0]);
    BelowOne(prefix, names[0]);
    assert names[..1] == [names[0]];
    forall n | 0 < n <= |names[1..]|
      ensures Below(prefix, names[..n + 1]) == Below(path, names[1..][..n])
    {
      assert names[..n + 1][1..] == names[1..][..n];
      BelowFirst(prefix, names[..n + 1]);
    }
    if CommonAlong(paths, path, names[1..]) && path in paths {
      forall n | 0 < n <= |names|
        ensures Below(prefix, names[..n]) in paths
      {
        if n > 1 { assert Below(path, names[1..][..n - 1]) in paths; }
      }
    }
    if CommonAlong(paths, prefix, names) {
      assert Below(prefix, names[..1]) in paths;
      forall n | 0 < n <= |names[1..]|
        ensures Below(path, names[1..][..n]) in paths
      {
        assert Below(prefix, names[..n + 1]) in paths;
      }
    }
  }

  lemma {:induction false} KeptIn(elements: seq<Node>, paths: set<string>, prefix: string, e: Node)
    ensures e in Keep(elements, paths, prefix)
            <==> exists i :: 0 <= i < |elements| && KeepOne(elements[i], paths, prefix) == [e]
  {
    if elements != [] {
      var rest := elements[1..];
      KeptIn(rest, paths, prefix, e);
      assert forall i | 0 < i < |elements| :: elements[i] == rest[i - 1];
      if i :| 0 <= i < |rest| && KeepOne(rest[i], paths, prefix) == [e] {
        assert KeepOne(elements[i + 1], paths, prefix) == [e];
      }
      if e in KeepOne(elements[0], paths, prefix) {
        assert KeepOne(elements[0], paths, prefix) == [e];
      }
    }
  }

  lemma KeptAsksOne(e: Node, paths: set<string>, prefix: string, names: seq<string>, t: Type)
    requires WellNamedBelow(e) && names != []
    requires IsGroup(e) && |names| > 1 ==>
               (Asks(Keep(e.children, paths, PathOf(prefix, e.name)), names[1..], t)
                <==> Asks(e.children, names[1..], t) && CommonAlong(paths, PathOf(prefix, e.name), names[1..]))
    ensures (exists k :: KeepOne(e, paths, prefix) == [k] && AsksFirst(k, names, t))
            <==> AsksFirst(e, names, t) && CommonAlong(paths, prefix, names)
  {
    var kept := KeepOne(e, paths, prefix);
    if e.name == names[0] {
      CommonFirst(paths, prefix, names);
      if AsksFirst(e, names, t) && CommonAlong(paths, prefix, names) {
        if |names| > 1 {
          AsksStep(Keep(e.children, paths, PathOf(prefix, e.name)), names[1..], t);
        }
        assert kept == [kept[0]] && AsksFirst(kept[0], names, t);
      }
    }
  }

  /** The elements that stay ask exactly the questions to which common paths lead all the way. */
  lemma {:induction false} KeptAsksExactly(elements: seq<Node>, paths: set<string>, prefix: string, names: seq<string>,
      t: Type)
    requires WellNamed(elements) && names != []
    ensures Asks(Keep(elements, paths, prefix), names, t)
            <==> Asks(elements, names, t) && CommonAlong(paths, prefix, names)
    decreases |names|
  {
    AsksStep(elements, names, t);
    AsksStep(Keep(elements, paths, prefix), names, t);
    forall i | 0 <= i < |elements|
      ensures (exists k :: KeepOne(elements[i], paths, prefix) == [k] && AsksFirst(k, names, t))
              <==> AsksFirst(elements[i], names, t) && CommonAlong(paths, prefix, names)
    {
      assert WellNamedBelow(elements[i]);
      if IsGroup(elements[i]) && |names| > 1 {
        KeptAsksExactly(elements[i].children, paths, PathOf(prefix, elements[i].name), names[1..], t);
      }
      KeptAsksOne(elements[i], paths, prefix, names, t);
    }
    forall k
      ensures k in Keep(elements, paths, prefix)
              <==> exists i :: 0 <= i < |elements| && KeepOne(elements[i], paths, prefix) == [k]
    {
      KeptIn(elements, paths, prefix, k);
    }
  }

  /** Finishing an element changes its bind and its options only. */
  lemma {:induction false} FinishKeepsShape(children: seq<Node>, i: nat, others: seq<Form>, k: nat)
    requires i <= |children| && k < |children|
    ensures FinishAll(children, i, others)[k].(bind := false, choices := {})
            == children[k].(bind := false, choices := {})
    decreases |children| - i
  {
    if i < |children| {
      FinishKeepsShape(children[i := Finished(children, i, others)], i + 1, others, k);
    }
  }

  lemma FinishedAsks(kept: seq<Node>, others: seq<Form>, names: seq<string>, t: Type)
    ensures Asks(FinishAll(kept, 0, others), names, t) <==> Asks(kept, names, t)
  {
    var done := FinishAll(kept, 0, others);
    forall k | 0 <= k < |kept|
      ensures SameShape(kept[k], done[k])
    {
      FinishKeepsShape(kept, 0, others, k);
    }
    if Asks(kept, names, t) {
      ShapeAsks(kept, done, names, t);
    }
    if Asks(done, names, t) {
      ShapeAsks(done, kept, names, t);
    }
  }

  predicate SameShape(a: Node, b: Node) {
    a.(bind := false, choices := {}) == b.(bind := false, choices := {})
  }

  lemma ShapeAsks(xs: seq<Node>, ys: seq<Node>, names: seq<string>, t: Type)
    requires |xs| == |ys| && forall k | 0 <= k < |xs| :: SameShape(xs[k], ys[k])
    requires Asks(xs, names, t)
    ensures Asks(ys, names, t)
  {
    var e := AskedByFirst(xs, names, t);
    var k :| 0 <= k < |xs| && xs[k] == e;
    assert SameShape(xs[k], ys[k]);
    FirstAsks(ys, names, t, ys[k]);
  }

  /** A merged form asks exactly the first form's questions all of whose paths, from the top down, lead to elements of
      one type in every form. */
  lemma MergedAsksExactly(forms: seq<Form>, names: seq<string>, t: Type)
    requires Merged(forms).Ok? && AllWellNamed(forms) && names != []
    ensures Asks(Merged(forms).value.children, names, t)
            <==> Asks(forms[0].children, names, t)
                 && forall n | 0 < n <= |names| :: Shared(forms, Join(names[..n], "/"))
  {
    var paths := CommonPaths(forms);
    FinishedAsks(Keep(forms[0].children, paths, ""), forms[1..], names, t);
    KeptAsksExactly(forms[0].children, paths, "", names, t);
    forall n | 0 < n <= |names|
      ensures Below("", names[..n]) in paths <==> Shared(forms, Join(names[..n], "/"))
    {
      CommonExactly(forms, Join(names[..n], "/"));
    }
  }

  // ---------------------------------------------------------------- options

  /** Some form's element of that name offers the option. */
  ghost predicate OfferedBySome(forms: seq<Form>, name: string, c: Choice) {
    exists i, e :: 0 <= i < |forms| && e in forms[i].children && e.name == name && c in e.choices
  }

  lemma {:induction false} OfferedByNamed(children: seq<Node>, name: string, c: Choice)
    requires DistinctNames(children)
    ensures c in Offered(name, children) <==> exists e :: e in children && e.name == name && c in e.choices
  {
    if children != [] {
      OfferedByNamed(children[1..], name, c);
      if children[0].name == name {
        if e :| e in children && e.name == name && c in e.choices {
          var j :| 0 <= j < |children| && children[j] == e;
          assert j == 0;
        }
        assert children[0] in children;
      }
    }
  }

  lemma {:induction false} KeptFromFirst(elements: seq<Node>, paths: set<string>, prefix: string, k: nat)
    requires k < |Keep(elements, paths, prefix)|
    ensures exists e :: e in elements && e.(children := []) == Keep(elements, paths, prefix)[k].(children := [])
    decreases elements
  {
    var first := KeepOne(elements[0], paths, prefix);
    if k < |first| {
      assert elements[0] in elements;
    } else {
      KeptFromFirst(elements[1..], paths, prefix, k - |first|);
    }
  }

  /** A select at the top of a merged form offers exactly what its namesakes at the top of the forms offer. */
  lemma OptionsExactly(forms: seq<Form>, k: nat, c: Choice)
    requires Merged(forms).Ok? && AllWellNamed(forms) && k < |Merged(forms).value.children|
    requires var e := Merged(forms).value.children[k]; e.type_ == SelectOne || e.type_ == SelectMultiple
    ensures var e := Merged(forms).value.children[k]; c in e.choices <==> OfferedBySome(forms, e.name, c)
  {
    var kept := Keep(forms[0].children, CommonPaths(forms), "");
    FinishKeepsShape(kept, 0, forms[1..], k);
    MergedElement(forms, k);
    KeptFromFirst(forms[0].children, CommonPaths(forms), "", k);
    var own :| own in forms[0].children && own.(children := []) == kept[k].(children := []);
    forall i | 0 <= i < |forms|
      ensures c in Offered(kept[k].name, forms[i].children)
              <==> exists e :: e in forms[i].children && e.name == kept[k].name && c in e.choices
    {
      OfferedByNamed(forms[i].children, kept[k].name, c);
    }
    var j :| 0 <= j < |forms[0].children| && forms[0].children[j] == own;
    OfferedExactly(forms[0].children, j);
  }

  predicate Uses(e: Node, list: string) {
    (e.type_ == SelectOne || e.type_ == SelectMultiple) && e.itemset == list
  }

  predicate UsesLast(children: seq<Node>, list: string, k: nat) {
    k < |children| && Uses(children[k], list) && forall j | k < j < |children| :: !Uses(children[j], list)
  }

  lemma {:induction false} ListsAre(lists: map<string, set<Choice>>, children: seq<Node>, list: string)
    ensures var all := ChoiceLists(lists, children);
            && (forall k: nat :: UsesLast(children, list, k) ==> list in all && all[list] == children[k].choices)
            && ((forall k | 0 <= k < |children| :: !Uses(children[k], list)) ==>
                  (list in all <==> list in lists) && (list in all ==> all[list] == lists[list]))
    decreases |children|
  {
    if children != [] {
      var n := |children| - 1;
      ListsAre(lists, children[..n], list);
      ListsStep(lists, children, list);
      forall k: nat | UsesLast(children, list, k)
        ensures if Uses(children[n], list) then k == n else k < n && UsesLast(children[..n], list, k)
      {
        UsesLastStep(children, list, k);
      }
    }
  }

  lemma ListsStep(lists: map<string, set<Choice>>, children: seq<Node>, list: string)
    requires children != []
    ensures var n := |children| - 1;
            var all, before := ChoiceLists(lists, children), ChoiceLists(lists, children[..n]);
            if Uses(children[n], list) then list in all && all[list] == children[n].choices
            else (list in all <==> list in before) && (list in all ==> all[list] == before[list])
  {}

  lemma UsesLastStep(children: seq<Node>, list: string, k: nat)
    requires children != [] && UsesLast(children, list, k)
    ensures var n := |children| - 1;
            if Uses(children[n], list) then k == n else k < n && UsesLast(children[..n], list, k)
  {}

  /** A list of options that selects at the top use is that of the last of them; any other list is the first form's. */
  lemma ListsExactly(forms: seq<Form>, list: string)
    requires Merged(forms).Ok?
    ensures var merged, lists := Merged(forms).value, forms[0].choices;
            && (forall k: nat :: UsesLast(merged.children, list, k) ==>
                  list in merged.choices && merged.choices[list] == merged.children[k].choices)
            && ((forall k | 0 <= k < |merged.children| :: !Uses(merged.children[k], list)) ==>
                  (list in merged.choices <==> list in lists)
                  && (list in merged.choices ==> merged.choices[list] == lists[list]))
  {
    ListsAre(forms[0].choices, Merged(forms).value.children, list);
  }

  /** Fewer than two forms is one refusal, no question in common but those of "meta" the other. */
  lemma RefusedExactly(forms: seq<Form>)
    requires AllWellNamed(forms)
    ensures Merged(forms) == Err(FewerThanTwo) <==> |forms| < 2
    ensures Merged(forms) == Err(NoMatchingFields) <==>
              |forms| >= 2 && forall names, t | names != [] && names[0] != "meta"
                  && Asks(forms[0].children, names, t) ::
                exists n | 0 < n <= |names| :: !Shared(forms, Join(names[..n], "/"))
  {
    if |forms| >= 2 {
      var paths := CommonPaths(forms);
      var kept := Keep(forms[0].children, paths, "");
      QuestionsKeptExactly(forms[0].children, paths, "", []);
      forall names, t | names != []
        ensures Asks(kept, names, t) <==> Asks(forms[0].children, names, t)
                                          && forall n | 0 < n <= |names| :: Shared(forms, Join(names[..n], "/"))
      {
        KeptAsksExactly(forms[0].children, paths, "", names, t);
        forall n | 0 < n <= |names|
          ensures Below("", names[..n]) in paths <==> Shared(forms, Join(names[..n], "/"))
        {
          CommonExactly(forms, Join(names[..n], "/"));
        }
      }
      if OnlyMeta(kept) {
        forall names, t | names != [] && Asks(kept, names, t)
          ensures names[0] == "meta"
        {
          AsksStep(kept, names, t);
        }
      } else {
        var i :| 0 <= i < |kept| && kept[i].name != "meta";
        var names, t := SomeQuestion(kept, i);
      }
    }
  }

  /** Without empty groups, every element leads to a question. */
  lemma {:induction false} SomeQuestion(elements: seq<Node>, i: nat) returns (names: seq<string>, t: Type)
    requires NoEmptyGroups(elements) && i < |elements|
    ensures names != [] && names[0] == elements[i].name && Asks(elements, names, t)
    decreases elements
  {
    var e := elements[i];
    assert NotEmpty(e);
    if Descends(e) {
      var rest, u := SomeQuestion(e.children, 0);
      names, t := [e.name] + rest, u;
      assert names[1..] == rest;
    } else {
      names, t := [e.name], e.type_;
    }
    assert e in elements && AsksFirst(e, names, t);
    AsksStep(elements, names, t);
  }
}
