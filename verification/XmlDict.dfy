/**
 From a submission's XML tree to a nested dictionary (_xml_node_to_dict in
 onadata/apps/logger/xform_instance_parser.py).
 */
module XmlDict {
  import opened Common
  import opened Text
  import opened Grouping

  datatype Node =
    | Element(tag: string, children: seq<Node>)
    | Text(data: string)
    | CData(data: string)
    | Comment
  {
    function Name(): string {
      match this
      case Element(tag, _) => tag
      case Text(_) => "#text"
      case CData(_) => "#cdata-section"
      case Comment => "#comment"
    }

    function Children(): seq<Node> {
      if Element? then children else []
    }
  }

  /** A Python value: a string, a dictionary in insertion order, or a list. */
  datatype Value =
    | Leaf(text: string)
    | Dict(entries: seq<(string, Value)>)
    | Many(items: seq<Value>)

  type Entries = seq<(string, Value)>

  /** Names from the outermost element on. */
  type Path = seq<string>

  // ---------------------------------------------------------------- what the code computes

  /** xpath_from_xml_node: trail holds the names from the document element down to the node. */
  function XPath(trail: seq<string>): string {
    if trail == [] then "" else Join(trail[1..], "/")
  }

  /** Becomes a list even if it occurs once. */
  predicate IsRepeat(trail: seq<string>, name: string, repeats: seq<string>, encrypted: bool) {
    XPath(trail + [name]) in repeats || (encrypted && name == "media")
  }

  function Combine(vs: seq<Value>, isRepeat: bool): Value {
    if |vs| == 1 && !isRepeat then vs[0] else Many(vs)
  }

  function Combined(bs: seq<(string, seq<Value>)>, trail: seq<string>, repeats: seq<string>, encrypted: bool): Entries {
    if bs == [] then []
    else [(bs[0].0, Combine(bs[0].1, IsRepeat(trail, bs[0].0, repeats, encrypted)))]
         + Combined(bs[1..], trail, repeats, encrypted)
  }

  function FirstCData(children: seq<Node>): Option<string> {
    if children == [] then None
    else if children[0].CData? then Some(children[0].data)
    else FirstCData(children[1..])
  }

  /** The value the dictionary of a node holds under the node's name; None for a node without data. */
  function ToValue(node: Node, trail: seq<string>, repeats: seq<string>, encrypted: bool): (v: Option<Value>)
    ensures v.Some? ==> !v.value.Many?
    decreases node, 1
  {
    var children := node.Children();
    if children == [] then None
    else if |children| == 1 && children[0].Text? then Some(Leaf(children[0].data))
    else if FirstCData(children).Some? then Some(Leaf(FirstCData(children).value))
    else
      var entries := Combined(Buckets(Pairs(children, trail, repeats)), trail, repeats, encrypted);
      if entries == [] then None else Some(Dict(entries))
  }

  /** The children that hold data, with their values, in document order. */
  function Pairs(children: seq<Node>, trail: seq<string>, repeats: seq<string>): Entries
    decreases children, 0
  {
    if children == [] then []
    else
      var v := ToValue(children[0], trail + [children[0].Name()], repeats, false);
      (if v.Some? then [(children[0].Name(), v.value)] else []) + Pairs(children[1..], trail, repeats)
  }

  // ---------------------------------------------------------------- the loop that fills the dictionary

  /** What a key holds after one more value. */
  function Added(current: Option<Value>, v: Value, isList: bool): Value {
    match current
    case None => if isList then Many([v]) else v
    case Some(c) => Many((if c.Many? then c.items else [c]) + [v])
  }

  method Aggregate(value: Entries, name: string, v: Value, isList: bool) returns (r: Entries)
    requires isList && Get(value, name).Some? ==> Get(value, name).value.Many?
    ensures r == Put(value, name, Added(Get(value, name), v, isList))
  {
    var current := Get(value, name);
    if !isList {
      if current.None? {
        r := Put(value, name, v);
      } else {
        var nodeValue := current.value;
        if !nodeValue.Many? {
          nodeValue := Many([nodeValue]);
        }
        r := Put(value, name, Many(nodeValue.items + [v]));
      }
    } else {
      if current.None? {
        r := Put(value, name, Many([v]));
      } else {
        r := Put(value, name, Many(current.value.items + [v]));
      }
    }
  }

  /** A dictionary with the node's name as its only key, or None: so the assertion in the loop never fires. */
  method XmlNodeToDict(node: Node, trail: seq<string>, repeats: seq<string>, encrypted: bool)
      returns (dict: Option<Entries>)
    ensures var v := ToValue(node, trail, repeats, encrypted);
      dict == if v.None? then None else Some([(node.Name(), v.value)])
    decreases node
  {
    var children := node.Children();
    if |children| == 0 {
      return None;
    }
    if |children| == 1 && children[0].Text? {
      return Some([(node.Name(), Leaf(children[0].data))]);
    }
    var value: Entries := [];
    var i := 0;
    while i < |children|
      invariant 0 <= i <= |children|
      invariant FirstCData(children) == FirstCData(children[i..])
      invariant value == Combined(Buckets(Pairs(children[..i], trail, repeats)), trail, repeats, encrypted)
    {
      var child := children[i];
      PairsOneMore(children, i, trail, repeats);
      if child.CData? {
        return Some([(node.Name(), Leaf(child.data))]);
      }
      var childDict := XmlNodeToDict(child, trail + [child.Name()], repeats, false);
      if childDict.Some? {
        var childName := child.Name();
        if |childDict.value| != 1 || childDict.value[0].0 != childName {
          assert false;                                  // raise AssertionError
        }
        AddedIsGrouped(children[..i], childName, childDict.value[0].1, trail, repeats, encrypted);
        var isList := XPath(trail + [childName]) in repeats || (encrypted && childName == "media");
        value := Aggregate(value, childName, childDict.value[0].1, isList);
      }
      i := i + 1;
    }
    assert children[..i] == children;
    if value == [] {
      return None;
    }
    dict := Some([(node.Name(), Dict(value))]);
  }

  /** One turn of the loop keeps the dictionary grouped. */
  lemma AddedIsGrouped(done: seq<Node>, name: string, v: Value, trail: seq<string>, repeats: seq<string>,
      encrypted: bool)
    ensures var ps := Pairs(done, trail, repeats);
      var value := Combined(Buckets(ps), trail, repeats, encrypted);
      var isList := IsRepeat(trail, name, repeats, encrypted);
      && (isList && Get(value, name).Some? ==> Get(value, name).value.Many?)
      && Put(value, name, Added(Get(value, name), v, isList))
         == Combined(Buckets(ps + [(name, v)]), trail, repeats, encrypted)
  {
    var ps := Pairs(done, trail, repeats);
    BucketsSnoc(ps, (name, v));
    CombinedInsert(Buckets(ps), name, v, trail, repeats, encrypted);
    CombinedGet(Buckets(ps), name, trail, repeats, encrypted);
    BucketOf(ps, name);
    PairsAreNotLists(done, trail, repeats);
    SelectedAreNotLists(ps, name);
    var vs := Select(ps, name);
    if vs != [] {
      assert vs[0] in vs;
      assert |vs| == 1 ==> vs == [vs[0]];
    }
  }

  lemma PairsOneMore(children: seq<Node>, i: nat, trail: seq<string>, repeats: seq<string>)
    requires i < |children|
    ensures var v := ToValue(children[i], trail + [children[i].Name()], repeats, false);
      var ps := Pairs(children[..i], trail, repeats);
      Pairs(children[..i + 1], trail, repeats) == if v.Some? then ps + [(children[i].Name(), v.value)] else ps
  {
    PairsSnoc(children[..i], children[i], trail, repeats);
    assert children[..i] + [children[i]] == children[..i + 1];
  }

  lemma {:induction false} PairsSnoc(children: seq<Node>, child: Node, trail: seq<string>, repeats: seq<string>)
    ensures var v := ToValue(child, trail + [child.Name()], repeats, false);
      Pairs(children + [child], trail, repeats)
      == Pairs(children, trail, repeats) + if v.Some? then [(child.Name(), v.value)] else []
  {
    var all := children + [child];
    var v := ToValue(child, trail + [child.Name()], repeats, false);
    var last := if v.Some? then [(child.Name(), v.value)] else [];
    if children == [] {
      assert all[0] == child && all[1..] == [];
      assert last + [] == last && [] + last == last;
    } else {
      var w := ToValue(children[0], trail + [children[0].Name()], repeats, false);
      var first := if w.Some? then [(children[0].Name(), w.value)] else [];
      assert all[0] == children[0] && all[1..] == children[1..] + [child];
      PairsSnoc(children[1..], child, trail, repeats);
      var rest := Pairs(children[1..], trail, repeats);
      assert first + (rest + last) == (first + rest) + last;
    }
  }

  lemma {:induction false} PairsAreNotLists(children: seq<Node>, trail: seq<string>, repeats: seq<string>)
    ensures forall p :: p in Pairs(children, trail, repeats) ==> !p.1.Many?
  {
    if children != [] {
      PairsAreNotLists(children[1..], trail, repeats);
    }
  }

  lemma {:induction false} SelectedAreNotLists(ps: Entries, key: string)
    requires forall p :: p in ps ==> !p.1.Many?
    ensures forall v :: v in Select(ps, key) ==> !v.Many?
  {
    if ps != [] {
      assert ps[0] in ps;
      SelectedAreNotLists(ps[1..], key);
    }
  }

  lemma {:induction false} CombinedGet(bs: seq<(string, seq<Value>)>, key: string, trail: seq<string>,
                                       repeats: seq<string>, encrypted: bool)
    ensures var isRepeat := IsRepeat(trail, key, repeats, encrypted);
      Get(Combined(bs, trail, repeats, encrypted), key)
      == if Get(bs, key).None? then None else Some(Combine(Get(bs, key).value, isRepeat))
  {
    if bs != [] {
      CombinedGet(bs[1..], key, trail, repeats, encrypted);
      assert Combined(bs, trail, repeats, encrypted)[1..] == Combined(bs[1..], trail, repeats, encrypted);
    }
  }

  lemma {:induction false} CombinedInsert(bs: seq<(string, seq<Value>)>, key: string, v: Value, trail: seq<string>,
                                          repeats: seq<string>, encrypted: bool)
    ensures var isRepeat := IsRepeat(trail, key, repeats, encrypted);
      var vs := if Get(bs, key).None? then [v] else Get(bs, key).value + [v];
      Combined(Insert(bs, key, v), trail, repeats, encrypted)
      == Put(Combined(bs, trail, repeats, encrypted), key, Combine(vs, isRepeat))
  {
    if bs == [] {
      assert Insert(bs, key, v)[1..] == [];
    } else {
      var es := Combined(bs, trail, repeats, encrypted);
      assert es[1..] == Combined(bs[1..], trail, repeats, encrypted);
      if bs[0].0 == key {
        assert Insert(bs, key, v)[1..] == bs[1..];
      } else {
        assert Insert(bs, key, v)[1..] == Insert(bs[1..], key, v);
        CombinedInsert(bs[1..], key, v, trail, repeats, encrypted);
      }
    }
  }
}
