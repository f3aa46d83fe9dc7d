/**
 Repeats as a form declares them, by the names below the root: what a submission's dictionary holds under every name,
 said of the tree alone (_xml_node_to_dict and xpath_from_xml_node in onadata/apps/logger/xform_instance_parser.py).
 */
module XmlRepeats {
  import opened Common
  import opened Text
  import opened Grouping
  import opened XmlDict
  import opened XmlLeaves
  import opened FlatDict

  // ---------------------------------------------------------------- declared repeats

  /** A form's repeats as the parser gets them: the names below the root, joined. */
  function Declared(paths: seq<Path>): seq<string> {
    if paths == [] then [] else [Join(paths[0], "/")] + Declared(paths[1..])
  }

  predicate NamesOnly(path: Path) {
    path != [] && forall i | 0 <= i < |path| :: GoodName(path[i])
  }

  predicate AllNamesOnly(paths: seq<Path>) {
    forall i | 0 <= i < |paths| :: NamesOnly(paths[i])
  }

  lemma JoinInjective(a: Path, b: Path)
    requires NamesOnly(a) && NamesOnly(b) && Join(a, "/") == Join(b, "/")
    ensures a == b
  {
    assert forall p :: p in a || p in b ==> GoodName(p);
    SplitJoin(a, '/');
    SplitJoin(b, '/');
  }

  lemma {:induction false} DeclaredExactly(paths: seq<Path>, path: Path)
    requires AllNamesOnly(paths) && NamesOnly(path)
    ensures Join(path, "/") in Declared(paths) <==> path in paths
  {
    if paths != [] {
      assert paths[0] == paths[0..][0] && forall i | 0 <= i < |paths[1..]| :: paths[1..][i] == paths[i + 1];
      DeclaredExactly(paths[1..], path);
      if Join(path, "/") == Join(paths[0], "/") {
        JoinInjective(path, paths[0]);
      }
      assert path in paths <==> path == paths[0] || path in paths[1..];
    }
  }

  // ---------------------------------------------------------------- what a dictionary should be

  /** The values of the children of a name that hold data, in order. */
  function Present(children: seq<Node>, ws: seq<Option<Value>>, name: string): seq<Value>
    requires |children| == |ws|
  {
    if children == [] then []
    else (if children[0].Name() == name && ws[0].Some? then [ws[0].value] else [])
         + Present(children[1..], ws[1..], name)
  }

  /** What stands under a name: nothing, a list if it is a repeat or occurs several times, else the only value. */
  function Under(vs: seq<Value>, isRepeat: bool): Option<Value> {
    if vs == [] then None else if isRepeat || |vs| > 1 then Some(Many(vs)) else Some(vs[0])
  }

  /** The children's values make up the dictionary of their parent, whose names below the root are given. */
  ghost predicate MadeOf(v: Option<Value>, children: seq<Node>, ws: seq<Option<Value>>, below: Path, paths: seq<Path>,
      encrypted: bool)
    decreases children, 0
  {
    && |ws| == |children|
    && (forall i :: 0 <= i < |children| ==> Built(ws[i], children[i], below + [children[i].Name()], paths, false))
    && (v.None? <==> forall i :: 0 <= i < |ws| ==> ws[i].None?)
    && (v.Some? ==>
          && v.value.Dict?
          && forall name ::
               Get(v.value.entries, name)
               == Under(Present(children, ws, name), below + [name] in paths || (encrypted && name == "media")))
  }

  /** The value of a node: its text, its first CDATA section, or a dictionary of its children's values. */
  ghost predicate Built(v: Option<Value>, node: Node, below: Path, paths: seq<Path>, encrypted: bool)
    decreases node, 1
  {
    var children := node.Children();
    if children == [] then v == None
    else if |children| == 1 && children[0].Text? then v == Some(Leaf(children[0].data))
    else if exists i :: 0 <= i < |children| && children[i].CData? then
      exists i :: 0 <= i < |children| && IsFirstCData(children, i) && v == Some(Leaf(children[i].data))
    else exists ws :: MadeOf(v, children, ws, below, paths, encrypted)
  }

  predicate IsFirstCData(children: seq<Node>, i: nat)
    requires i < |children|
  {
    children[i].CData? && forall j | 0 <= j < i :: !children[j].CData?
  }

  // ---------------------------------------------------------------- the parser builds it

  /** Children's values as the parser computes them. */
  function ChildValues(children: seq<Node>, trail: Path, repeats: seq<string>): (ws: seq<Option<Value>>)
    ensures |ws| == |children|
    ensures forall i :: 0 <= i < |ws| ==> ws[i] == ToValue(children[i], trail + [children[i].Name()], repeats, false)
  {
    seq(|children|, i requires 0 <= i < |children| => ToValue(children[i], trail + [children[i].Name()], repeats,
        false))
  }

  lemma {:induction false} PresentIsOccurrences(children: seq<Node>, trail: Path, repeats: seq<string>, name: string)
    ensures Present(children, ChildValues(children, trail, repeats), name)
         == Occurrences(children, name, trail, repeats)
  {
    if children != [] {
      PresentIsOccurrences(children[1..], trail, repeats, name);
      assert ChildValues(children, trail, repeats)[1..] == ChildValues(children[1..], trail, repeats);
    }
  }

  lemma {:induction false} NoPairsExactly(children: seq<Node>, trail: Path, repeats: seq<string>)
    ensures Pairs(children, trail, repeats) == []
       <==> forall i :: 0 <= i < |children| ==> ChildValues(children, trail, repeats)[i].None?
  {
    if children != [] {
      NoPairsExactly(children[1..], trail, repeats);
      var ws := ChildValues(children, trail, repeats);
      assert forall i :: 0 <= i < |children[1..]| ==> ChildValues(children[1..], trail, repeats)[i] == ws[i + 1];
      if i :| 0 < i < |children| && ws[i].Some? {
        assert ChildValues(children[1..], trail, repeats)[i - 1].Some?;
      }
    }
  }

  lemma {:induction false} FirstCDataIs(children: seq<Node>)
    ensures FirstCData(children).Some? <==> exists i :: 0 <= i < |children| && children[i].CData?
    ensures FirstCData(children).Some? ==>
              exists i :: 0 <= i < |children| && IsFirstCData(children, i)
                  && FirstCData(children).value == children[i].data
  {
    if children != [] {
      if children[0].CData? {
        assert IsFirstCData(children, 0);
      } else {
        FirstCDataIs(children[1..]);
        assert forall i :: 0 <= i < |children[1..]| ==> children[1..][i] == children[i + 1];
        if i :| 0 <= i < |children| && children[i].CData? {
          assert children[1..][i - 1].CData?;
        }
        if FirstCData(children).Some? {
          var i :| 0 <= i < |children[1..]| && IsFirstCData(children[1..], i)
                   && FirstCData(children).value == children[1..][i].data;
          assert IsFirstCData(children, i + 1);
        }
      }
    }
  }

  /** Below the root, the parser's path of a child is the joined names without the root. */
  lemma XPathBelow(root: string, below: Path, name: string)
    ensures XPath([root] + below + [name]) == Join(below + [name], "/")
  {
    assert ([root] + below + [name])[1..] == below + [name];
  }

  lemma RepeatExactly(root: string, below: Path, name: string, paths: seq<Path>)
    requires AllNamesOnly(paths) && (below == [] || NamesOnly(below)) && GoodName(name)
    ensures XPath([root] + below + [name]) in Declared(paths) <==> below + [name] in paths
  {
    XPathBelow(root, below, name);
    DeclaredExactly(paths, below + [name]);
  }

  lemma OthersAbsent(children: seq<Node>, ws: seq<Option<Value>>, name: string)
    requires |children| == |ws| && forall i :: 0 <= i < |children| ==> children[i].Name() != name
    ensures Present(children, ws, name) == []
  {}

  /** The dictionary of an inner node, name by name. */
  lemma EntriesAreUnder(node: Node, root: string, below: Path, paths: seq<Path>, encrypted: bool, name: string)
    requires AllNamesOnly(paths) && (below == [] || NamesOnly(below)) && GoodChildNames(node.Children())
    requires var v := ToValue(node, [root] + below, Declared(paths), encrypted); v.Some? && v.value.Dict?
    ensures var children, repeats := node.Children(), Declared(paths);
            Get(ToValue(node, [root] + below, repeats, encrypted).value.entries, name)
            == Under(Present(children, ChildValues(children, [root] + below, repeats), name),
                     below + [name] in paths || (encrypted && name == "media"))
  {
    var children, trail, repeats := node.Children(), [root] + below, Declared(paths);
    PresentIsOccurrences(children, trail, repeats, name);
    RepeatsBecomeLists(node, trail, repeats, encrypted, name);
    if i :| 0 <= i < |children| && children[i].Name() == name {
      RepeatExactly(root, below, name, paths);
      OnlyRepeatsAreLists(node, trail, repeats, encrypted, name);
    } else {
      OthersAbsent(children, ChildValues(children, trail, repeats), name);
    }
  }

  predicate GoodChildNames(children: seq<Node>) {
    forall i | 0 <= i < |children| :: GoodName(children[i].Name())
  }

  lemma GoodNamesOfChildren(node: Node)
    requires GoodNames(node)
    ensures GoodChildNames(node.Children()) && forall c :: c in node.Children() ==> GoodNames(c)
  {
    forall i | 0 <= i < |node.Children()|
      ensures GoodName(node.Children()[i].Name())
    {
      assert node.Children()[i] in node.Children() && GoodNames(node.Children()[i]);
    }
  }

  /** A value that occurs once and is no repeat is not made a list. */
  lemma OnlyRepeatsAreLists(node: Node, trail: Path, repeats: seq<string>, encrypted: bool, name: string)
    requires var v := ToValue(node, trail, repeats, encrypted); v.Some? && v.value.Dict?
    ensures var got := Get(ToValue(node, trail, repeats, encrypted).value.entries, name);
            var isRepeat := XPath(trail + [name]) in repeats || (encrypted && name == "media");
            got == Under(Occurrences(node.Children(), name, trail, repeats), isRepeat)
  {
    var ps := Pairs(node.Children(), trail, repeats);
    SelectOccurrences(node.Children(), name, trail, repeats);
    BucketOf(ps, name);
    CombinedGet(Buckets(ps), name, trail, repeats, encrypted);
  }

  predicate IsInner(children: seq<Node>) {
    children != [] && !(|children| == 1 && children[0].Text?) && FirstCData(children).None?
  }

  /** The values of an inner node's children make up its dictionary. */
  lemma ChildrenMakeIt(node: Node, root: string, below: Path, paths: seq<Path>, encrypted: bool)
    requires AllNamesOnly(paths) && (below == [] || NamesOnly(below)) && GoodChildNames(node.Children())
    requires IsInner(node.Children())
    requires forall i :: 0 <= i < |node.Children()| ==> ChildBuilt(node, root, below, paths, i)
    ensures MadeOf(ToValue(node, [root] + below, Declared(paths), encrypted), node.Children(),
                   ChildValues(node.Children(), [root] + below, Declared(paths)), below, paths, encrypted)
  {
    var children, trail, repeats := node.Children(), [root] + below, Declared(paths);
    var v, ws := ToValue(node, trail, repeats, encrypted), ChildValues(children, trail, repeats);
    forall i | 0 <= i < |children|
      ensures Built(ws[i], children[i], below + [children[i].Name()], paths, false)
    {
      assert ChildBuilt(node, root, below, paths, i);
    }
    NoPairsExactly(children, trail, repeats);
    EmptyExactly(Pairs(children, trail, repeats), trail, repeats, encrypted);
    if v.Some? {
      forall name
        ensures Get(v.value.entries, name)
             == Under(Present(children, ws, name), below + [name] in paths || (encrypted && name == "media"))
      {
        EntriesAreUnder(node, root, below, paths, encrypted, name);
      }
    }
  }

  ghost predicate ChildBuilt(node: Node, root: string, below: Path, paths: seq<Path>, i: nat)
    requires i < |node.Children()|
  {
    var child := node.Children()[i];
    Built(ToValue(child, [root] + below + [child.Name()], Declared(paths), false), child, below + [child.Name()],
        paths, false)
  }

  lemma {:induction false} ParserBuilds(node: Node, root: string, below: Path, paths: seq<Path>, encrypted: bool)
    requires AllNamesOnly(paths) && (below == [] || NamesOnly(below)) && GoodNames(node)
    ensures Built(ToValue(node, [root] + below, Declared(paths), encrypted), node, below, paths, encrypted)
    decreases node
  {
    var children := node.Children();
    FirstCDataIs(children);
    if IsInner(children) {
      GoodNamesOfChildren(node);
      forall i | 0 <= i < |children|
        ensures ChildBuilt(node, root, below, paths, i)
      {
        assert children[i] in children;
        assert [root] + (below + [children[i].Name()]) == [root] + below + [children[i].Name()];
        ParserBuilds(children[i], root, below + [children[i].Name()], paths, false);
      }
      ChildrenMakeIt(node, root, below, paths, encrypted);
    }
  }

  lemma EmptyExactly(ps: Entries, trail: Path, repeats: seq<string>, encrypted: bool)
    ensures Combined(Buckets(ps), trail, repeats, encrypted) == [] <==> ps == []
  {}

  /** The dictionary of a whole submission: a repeat that the form declares is a list wherever the tree has it, with one
      entry for each occurrence that holds data, also for a single one; any other name is a list only if it occurs
      several times; and this only depends on the names below the root. */
  lemma DeclaredRepeatsAreLists(root: Node, paths: seq<Path>, encrypted: bool)
    requires root.Element? && GoodNames(root) && AllNamesOnly(paths)
    ensures Built(ToValue(root, [root.tag], Declared(paths), encrypted), root, [], paths, encrypted)
  {
    assert [root.tag] + [] == [root.tag];
    ParserBuilds(root, root.tag, [], paths, encrypted);
  }

  // ---------------------------------------------------------------- the root's name

  lemma {:induction false} OtherRoot(node: Node, a: string, b: string, below: Path, repeats: seq<string>,
      encrypted: bool)
    ensures ToValue(node, [a] + below, repeats, encrypted) == ToValue(node, [b] + below, repeats, encrypted)
    decreases node, 1
  {
    if node.Element? {
      OtherRootPairs(node.children, a, b, below, repeats);
      OtherRootCombined(Buckets(Pairs(node.children, [a] + below, repeats)), a, b, below, repeats, encrypted);
    }
  }

  lemma {:induction false} OtherRootPairs(children: seq<Node>, a: string, b: string, below: Path, repeats: seq<string>)
    ensures Pairs(children, [a] + below, repeats) == Pairs(children, [b] + below, repeats)
    decreases children, 0
  {
    if children != [] {
      var name := children[0].Name();
      assert [a] + below + [name] == [a] + (below + [name]) && [b] + below + [name] == [b] + (below + [name]);
      OtherRoot(children[0], a, b, below + [name], repeats, false);
      OtherRootPairs(children[1..], a, b, below, repeats);
    }
  }

  lemma {:induction false} OtherRootCombined(bs: seq<(string, seq<Value>)>, a: string, b: string, below: Path,
      repeats: seq<string>, encrypted: bool)
    ensures Combined(bs, [a] + below, repeats, encrypted) == Combined(bs, [b] + below, repeats, encrypted)
  {
    if bs != [] {
      XPathBelow(a, below, bs[0].0);
      XPathBelow(b, below, bs[0].0);
      OtherRootCombined(bs[1..], a, b, below, repeats, encrypted);
    }
  }

  /** Renaming the root changes nothing in the dictionary below it. */
  lemma RootNameIsIrrelevant(children: seq<Node>, a: string, b: string, repeats: seq<string>, encrypted: bool)
    ensures ToValue(Element(a, children), [a], repeats, encrypted)
        == ToValue(Element(b, children), [b], repeats, encrypted)
  {
    assert [a] + [] == [a] && [b] + [] == [b];
    OtherRootPairs(children, a, b, [], repeats);
    OtherRootCombined(Buckets(Pairs(children, [a], repeats)), a, b, [], repeats, encrypted);
  }
}
