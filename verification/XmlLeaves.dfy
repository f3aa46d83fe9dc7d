/** No text is lost or reordered when a submission's tree becomes a dictionary, and exactly when. */
module XmlLeaves {
  import opened Grouping
  import opened XmlDict

  type Leaves = seq<(Path, string)>

  // ---------------------------------------------------------------- the leaves of a tree and of a value

  /** Every piece of text below a node, in document order, with the names of the enclosing elements. */
  function Texts(node: Node, path: Path): Leaves
    decreases node, 1
  {
    match node
    case Text(data) => [(path, data)]
    case CData(data) => [(path, data)]
    case Comment => []
    case Element(_, children) => ChildTexts(children, path)
  }

  function ChildTexts(children: seq<Node>, path: Path): Leaves
    decreases children, 0
  {
    if children == [] then []
    else
      (if children[0].Element? then Texts(children[0], path + [children[0].tag]) else Texts(children[0], path))
      + ChildTexts(children[1..], path)
  }

  function ValueLeaves(v: Value, path: Path): Leaves
    decreases v, 1
  {
    match v
    case Leaf(text) => [(path, text)]
    case Dict(entries) => EntryLeaves(entries, path)
    case Many(items) => ItemLeaves(items, path)
  }

  function EntryLeaves(entries: Entries, path: Path): Leaves
    decreases entries, 0
  {
    if entries == [] then []
    else
      assert entries decreases to entries[0];
      ValueLeaves(entries[0].1, path + [entries[0].0]) + EntryLeaves(entries[1..], path)
  }

  function ItemLeaves(items: seq<Value>, path: Path): Leaves
    decreases items, 0
  {
    if items == [] then [] else ValueLeaves(items[0], path) + ItemLeaves(items[1..], path)
  }

  /** The texts at one path, in order. */
  function At(leaves: Leaves, path: Path): seq<string> {
    if leaves == [] then [] else (if leaves[0].0 == path then [leaves[0].1] else []) + At(leaves[1..], path)
  }

  /** At every path the two hold the same texts in the same order. */
  ghost predicate SameLeaves(a: Leaves, b: Leaves) {
    forall path: Path :: At(a, path) == At(b, path)
  }

  // ---------------------------------------------------------------- the trees that lose nothing

  /** How many pieces of text there are below a node. */
  function TextCount(node: Node): nat
    decreases node, 1
  {
    match node
    case Element(_, children) => TextCounts(children)
    case Comment => 0
    case _ => 1
  }

  function TextCounts(children: seq<Node>): nat
    decreases children, 0
  {
    if children == [] then 0 else TextCount(children[0]) + TextCounts(children[1..])
  }

  /** An element holds one text alone, or a CDATA section as its only text, or elements and comments only. */
  predicate Lossless(node: Node)
    decreases node, 1
  {
    match node
    case Element(_, children) =>
      if |children| == 1 && children[0].Text? then true
      else if FirstCData(children).Some? then TextCounts(children) == 1
      else AllLossless(children)
    case Comment => true
    case _ => false
  }

  predicate AllLossless(children: seq<Node>)
    decreases children, 0
  {
    children == [] || (Lossless(children[0]) && AllLossless(children[1..]))
  }

  // ---------------------------------------------------------------- lists of leaves

  lemma {:induction false} AtAppend(a: Leaves, b: Leaves, path: Path)
    ensures At(a + b, path) == At(a, path) + At(b, path)
  {
    var ab := a + b;
    if a == [] {
      assert ab == b && [] + At(b, path) == At(b, path);
    } else {
      var first := if a[0].0 == path then [a[0].1] else [];
      assert ab[0] == a[0] && ab[1..] == a[1..] + b;
      AtAppend(a[1..], b, path);
      assert first + (At(a[1..], path) + At(b, path)) == (first + At(a[1..], path)) + At(b, path);
    }
  }

  ghost predicate Below(leaves: Leaves, path: Path) {
    forall i :: 0 <= i < |leaves| ==> path <= leaves[i].0
  }

  lemma {:induction false} AtElsewhere(leaves: Leaves, above: Path, path: Path)
    requires Below(leaves, above) && !(above <= path)
    ensures At(leaves, path) == []
  {
    if leaves != [] {
      assert above <= leaves[0].0;
      AtElsewhere(leaves[1..], above, path);
    }
  }

  lemma {:induction false} CountAt(leaves: Leaves, path: Path, text: string)
    ensures multiset(leaves)[(path, text)] == multiset(At(leaves, path))[text]
  {
    if leaves != [] {
      CountAt(leaves[1..], path, text);
      assert leaves == [leaves[0]] + leaves[1..];
      assert multiset(leaves) == multiset{leaves[0]} + multiset(leaves[1..]);
      if leaves[0].0 == path {
        assert At(leaves, path) == [leaves[0].1] + At(leaves[1..], path);
        assert multiset(At(leaves, path)) == multiset{leaves[0].1} + multiset(At(leaves[1..], path));
      } else {
        assert At(leaves, path) == At(leaves[1..], path);
      }
    }
  }

  lemma SameLeavesSameLength(a: Leaves, b: Leaves)
    requires SameLeaves(a, b)
    ensures |a| == |b|
  {
    forall leaf: (Path, string) ensures multiset(a)[leaf] == multiset(b)[leaf] {
      CountAt(a, leaf.0, leaf.1);
      CountAt(b, leaf.0, leaf.1);
      assert At(a, leaf.0) == At(b, leaf.0);
    }
    assert multiset(a) == multiset(b);
    assert |multiset(a)| == |a| && |multiset(b)| == |b|;
  }

  // ---------------------------------------------------------------- everything stays below its path

  lemma {:induction false} ValueLeavesBelow(v: Value, path: Path)
    ensures Below(ValueLeaves(v, path), path)
    decreases v, 1
  {
    match v
    case Leaf(_) =>
    case Dict(entries) => EntryLeavesBelow(entries, path);
    case Many(items) => ItemLeavesBelow(items, path);
  }

  lemma {:induction false} EntryLeavesBelow(entries: Entries, path: Path)
    ensures Below(EntryLeaves(entries, path), path)
    decreases entries, 0
  {
    if entries != [] {
      assert entries decreases to entries[0];
      ValueLeavesBelow(entries[0].1, path + [entries[0].0]);
      var first := ValueLeaves(entries[0].1, path + [entries[0].0]);
      forall i | 0 <= i < |first| ensures path <= first[i].0 {
        assert path + [entries[0].0] <= first[i].0;
      }
      EntryLeavesBelow(entries[1..], path);
    }
  }

  lemma {:induction false} ItemLeavesBelow(items: seq<Value>, path: Path)
    ensures Below(ItemLeaves(items, path), path)
    decreases items, 0
  {
    if items != [] {
      ValueLeavesBelow(items[0], path);
      ItemLeavesBelow(items[1..], path);
    }
  }

  // ---------------------------------------------------------------- grouping moves texts only between paths

  /** The leaves of a list of pairs at a path that goes through a name are those of that name's values. */
  lemma {:induction false} AtSelected(ps: Entries, path: Path, name: string, at: Path)
    requires path + [name] <= at
    ensures At(EntryLeaves(ps, path), at) == At(ItemLeaves(Select(ps, name), path + [name]), at)
  {
    if ps != [] {
      AtSelected(ps[1..], path, name, at);
      var first := ValueLeaves(ps[0].1, path + [ps[0].0]);
      AtAppend(first, EntryLeaves(ps[1..], path), at);
      if ps[0].0 == name {
        assert Select(ps, name) == [ps[0].1] + Select(ps[1..], name);
        AtAppend(first, ItemLeaves(Select(ps[1..], name), path + [name]), at);
      } else {
        assert Select(ps, name) == Select(ps[1..], name);
        ValueLeavesBelow(ps[0].1, path + [ps[0].0]);
        assert (path + [ps[0].0])[|path|] != at[|path|];
        AtElsewhere(first, path + [ps[0].0], at);
      }
    }
  }

  lemma {:induction false} AtOthers(ps: Entries, path: Path, name: string, at: Path)
    requires !(path + [name] <= at)
    ensures At(EntryLeaves(ps, path), at) == At(EntryLeaves(Without(ps, name), path), at)
  {
    if ps != [] {
      AtOthers(ps[1..], path, name, at);
      var first := ValueLeaves(ps[0].1, path + [ps[0].0]);
      AtAppend(first, EntryLeaves(ps[1..], path), at);
      if ps[0].0 == name {
        ValueLeavesBelow(ps[0].1, path + [name]);
        AtElsewhere(first, path + [name], at);
        assert Without(ps, name) == Without(ps[1..], name);
      } else {
        assert Without(ps, name)[0] == ps[0] && Without(ps, name)[1..] == Without(ps[1..], name);
        AtAppend(first, EntryLeaves(Without(ps[1..], name), path), at);
      }
    }
  }

  lemma CombineLeaves(vs: seq<Value>, isRepeat: bool, path: Path)
    ensures ValueLeaves(Combine(vs, isRepeat), path) == ItemLeaves(vs, path)
  {}

  lemma {:induction false} GroupingKeepsLeaves(ps: Entries, path: Path, at: Path, trail: seq<string>,
      repeats: seq<string>,
                                               encrypted: bool)
    ensures At(EntryLeaves(Combined(Buckets(ps), trail, repeats, encrypted), path), at) == At(EntryLeaves(ps, path), at)
    decreases |ps|
  {
    if ps != [] {
      var name := ps[0].0;
      var rest := Without(ps[1..], name);
      var vs := [ps[0].1] + Select(ps[1..], name);
      var es := Combined(Buckets(ps), trail, repeats, encrypted);
      var v := Combine(vs, IsRepeat(trail, name, repeats, encrypted));
      var es' := Combined(Buckets(rest), trail, repeats, encrypted);
      assert Buckets(ps)[0] == (name, vs) && Buckets(ps)[1..] == Buckets(rest);
      assert es[0] == (name, v) && es[1..] == es';
      assert EntryLeaves(es, path) == ValueLeaves(v, path + [name]) + EntryLeaves(es', path);
      AtAppend(ValueLeaves(v, path + [name]), EntryLeaves(es', path), at);
      CombineLeaves(vs, IsRepeat(trail, name, repeats, encrypted), path + [name]);
      GroupingKeepsLeaves(rest, path, at, trail, repeats, encrypted);
      assert vs == Select(ps, name);
      assert rest == Without(ps, name);
      SelectWithout(ps, name, name);
      if path + [name] <= at {
        AtSelected(ps, path, name, at);
        AtSelected(rest, path, name, at);
      } else {
        AtOthers(ps, path, name, at);
        ItemLeavesBelow(vs, path + [name]);
        AtElsewhere(ItemLeaves(vs, path + [name]), path + [name], at);
      }
    }
  }

  // ---------------------------------------------------------------- the theorem

  /** The leaves of what the parser builds for a node (none when it finds no data). */
  function BuiltLeaves(node: Node, trail: seq<string>, repeats: seq<string>, encrypted: bool, path: Path): Leaves {
    var v := ToValue(node, trail, repeats, encrypted);
    if v.None? then [] else ValueLeaves(v.value, path)
  }

  lemma {:induction false} TextsCounted(node: Node, path: Path)
    ensures |Texts(node, path)| == TextCount(node)
    decreases node, 1
  {
    if node.Element? {
      ChildTextsCounted(node.children, path);
    }
  }

  lemma {:induction false} ChildTextsCounted(children: seq<Node>, path: Path)
    ensures |ChildTexts(children, path)| == TextCounts(children)
    decreases children, 0
  {
    if children != [] {
      TextsCounted(children[0], if children[0].Element? then path + [children[0].tag] else path);
      ChildTextsCounted(children[1..], path);
    }
  }

  lemma {:induction false} CDataAlone(children: seq<Node>, path: Path)
    requires FirstCData(children).Some?
    ensures TextCounts(children) >= 1
    ensures TextCounts(children) == 1 ==> ChildTexts(children, path) == [(path, FirstCData(children).value)]
  {
    ChildTextsCounted(children, path);
    ChildTextsCounted(children[1..], path);
    if !children[0].CData? {
      TextsCounted(children[0], if children[0].Element? then path + [children[0].tag] else path);
      CDataAlone(children[1..], path);
    }
  }

  lemma {:induction false} PairsEmpty(ps: Entries, trail: seq<string>, repeats: seq<string>, encrypted: bool)
    ensures Combined(Buckets(ps), trail, repeats, encrypted) == [] <==> ps == []
  {}

  /** What is built for an element without CDATA or lone text holds, path by path, its children's values. */
  lemma BuiltFromPairs(node: Node, trail: seq<string>, repeats: seq<string>, encrypted: bool, path: Path)
    requires node.Element? && !(|node.children| == 1 && node.children[0].Text?) && FirstCData(node.children).None?
    ensures SameLeaves(BuiltLeaves(node, trail, repeats, encrypted, path),
                       EntryLeaves(Pairs(node.children, trail, repeats), path))
  {
    var ps := Pairs(node.children, trail, repeats);
    PairsEmpty(ps, trail, repeats, encrypted);
    forall at: Path
      ensures At(BuiltLeaves(node, trail, repeats, encrypted, path), at) == At(EntryLeaves(ps, path), at)
    {
      GroupingKeepsLeaves(ps, path, at, trail, repeats, encrypted);
    }
  }

  lemma {:induction false} LosslessKeeps(node: Node, trail: seq<string>, repeats: seq<string>, encrypted: bool,
      path: Path, at: Path)
    requires node.Element? && Lossless(node)
    ensures At(BuiltLeaves(node, trail, repeats, encrypted, path), at) == At(Texts(node, path), at)
    decreases node, 1
  {
    var children := node.children;
    if |children| == 1 && children[0].Text? {
      assert ChildTexts(children[1..], path) == [];
      assert ChildTexts(children, path) == [(path, children[0].data)];
    } else if FirstCData(children).Some? {
      CDataAlone(children, path);
    } else {
      BuiltFromPairs(node, trail, repeats, encrypted, path);
      LosslessChildrenKeep(children, trail, repeats, path, at);
    }
  }

  lemma {:induction false} LosslessChildrenKeep(children: seq<Node>, trail: seq<string>, repeats: seq<string>,
      path: Path, at: Path)
    requires AllLossless(children) && FirstCData(children).None?
    ensures At(EntryLeaves(Pairs(children, trail, repeats), path), at) == At(ChildTexts(children, path), at)
    decreases children, 0
  {
    if children != [] {
      var c := children[0];
      var rest := Pairs(children[1..], trail, repeats);
      LosslessChildrenKeep(children[1..], trail, repeats, path, at);
      if c.Element? {
        var below := path + [c.tag];
        LosslessKeeps(c, trail + [c.tag], repeats, false, below, at);
        AtAppend(Texts(c, below), ChildTexts(children[1..], path), at);
        var v := ToValue(c, trail + [c.tag], repeats, false);
        if v.Some? {
          var ps := Pairs(children, trail, repeats);
          assert ps[0] == (c.tag, v.value) && ps[1..] == rest;
          AtAppend(ValueLeaves(v.value, below), EntryLeaves(rest, path), at);
        } else {
          assert Pairs(children, trail, repeats) == rest;
        }
      } else {
        assert Pairs(children, trail, repeats) == rest;
        assert ChildTexts(children, path) == ChildTexts(children[1..], path);
      }
    }
  }

  /** Nothing is invented; and a tree that is not lossless loses some text. */
  lemma {:induction false} BuiltCount(node: Node, trail: seq<string>, repeats: seq<string>, encrypted: bool, path: Path)
    ensures |BuiltLeaves(node, trail, repeats, encrypted, path)| <= TextCount(node)
    ensures !Lossless(node) ==> |BuiltLeaves(node, trail, repeats, encrypted, path)| < TextCount(node)
    decreases node, 1
  {
    if node.Element? {
      var children := node.children;
      if |children| == 1 && children[0].Text? {
        assert TextCounts(children[1..]) == 0 && TextCount(children[0]) == 1;
      } else if FirstCData(children).Some? {
        CDataAlone(children, path);
      } else {
        BuiltFromPairs(node, trail, repeats, encrypted, path);
        SameLeavesSameLength(BuiltLeaves(node, trail, repeats, encrypted, path),
                             EntryLeaves(Pairs(children, trail, repeats), path));
        PairsCount(children, trail, repeats, path);
      }
    }
  }

  lemma {:induction false} PairsCount(children: seq<Node>, trail: seq<string>, repeats: seq<string>, path: Path)
    ensures |EntryLeaves(Pairs(children, trail, repeats), path)| <= TextCounts(children)
    ensures !AllLossless(children) ==> |EntryLeaves(Pairs(children, trail, repeats), path)| < TextCounts(children)
    decreases children, 0
  {
    if children != [] {
      var c := children[0];
      var rest := Pairs(children[1..], trail, repeats);
      PairsCount(children[1..], trail, repeats, path);
      BuiltCount(c, trail + [c.Name()], repeats, false, path + [c.Name()]);
      var v := ToValue(c, trail + [c.Name()], repeats, false);
      var ps := Pairs(children, trail, repeats);
      if v.Some? {
        assert ps[0] == (c.Name(), v.value) && ps[1..] == rest;
      } else {
        assert ps == rest;
      }
    }
  }

  /** The dictionary of an element holds at every path exactly the tree's texts at that path, in document
      order, precisely when the tree is lossless. */
  lemma LeavesKeptExactly(node: Node, trail: seq<string>, repeats: seq<string>, encrypted: bool, path: Path)
    requires node.Element?
    ensures SameLeaves(BuiltLeaves(node, trail, repeats, encrypted, path), Texts(node, path)) <==> Lossless(node)
  {
    if Lossless(node) {
      forall at: Path
        ensures At(BuiltLeaves(node, trail, repeats, encrypted, path), at) == At(Texts(node, path), at)
      {
        LosslessKeeps(node, trail, repeats, encrypted, path, at);
      }
    } else if SameLeaves(BuiltLeaves(node, trail, repeats, encrypted, path), Texts(node, path)) {
      SameLeavesSameLength(BuiltLeaves(node, trail, repeats, encrypted, path), Texts(node, path));
      TextsCounted(node, path);
      BuiltCount(node, trail, repeats, encrypted, path);
      assert false;
    }
  }

  // ---------------------------------------------------------------- repeats

  /** How many children of a name hold data. */
  function Occurrences(children: seq<Node>, name: string, trail: seq<string>, repeats: seq<string>): seq<Value> {
    if children == [] then []
    else
      var v := ToValue(children[0], trail + [children[0].Name()], repeats, false);
      (if children[0].Name() == name && v.Some? then [v.value] else [])
          + Occurrences(children[1..], name, trail, repeats)
  }

  lemma {:induction false} SelectOccurrences(children: seq<Node>, name: string, trail: seq<string>,
      repeats: seq<string>)
    ensures Select(Pairs(children, trail, repeats), name) == Occurrences(children, name, trail, repeats)
  {
    if children != [] {
      SelectOccurrences(children[1..], name, trail, repeats);
      var c := children[0];
      var v := ToValue(c, trail + [c.Name()], repeats, false);
      var ps, rest := Pairs(children, trail, repeats), Pairs(children[1..], trail, repeats);
      if v.Some? {
        assert ps[0] == (c.Name(), v.value) && ps[1..] == rest;
      } else {
        assert ps == rest;
      }
    }
  }

  /** In a built dictionary, a declared repeat (and a name that occurs several times) maps to the list of its
      non-empty occurrences, in order; a name that occurs once maps to that occurrence; no other name is there. */
  lemma RepeatsBecomeLists(node: Node, trail: seq<string>, repeats: seq<string>, encrypted: bool, name: string)
    requires var v := ToValue(node, trail, repeats, encrypted); v.Some? && v.value.Dict?
    ensures var got := Get(ToValue(node, trail, repeats, encrypted).value.entries, name);
      var vs := Occurrences(node.Children(), name, trail, repeats);
      && (got.None? <==> vs == [])
      && (got.Some? && (XPath(trail + [name]) in repeats || (encrypted && name == "media") || |vs| > 1) ==>
            got.value == Many(vs))
      && (got.Some? && got.value.Many? ==> got.value.items == vs)
      && (got.Some? && !got.value.Many? ==> vs == [got.value])
  {
    var ps := Pairs(node.Children(), trail, repeats);
    SelectOccurrences(node.Children(), name, trail, repeats);
    BucketOf(ps, name);
    CombinedGet(Buckets(ps), name, trail, repeats, encrypted);
    PairsAreNotLists(node.Children(), trail, repeats);
    SelectedAreNotLists(ps, name);
    var vs := Select(ps, name);
    if |vs| == 1 {
      assert vs[0] in vs && vs == [vs[0]];
    }
  }
}
