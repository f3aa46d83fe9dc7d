/**
 Flattening a submission's nested dictionary (_flatten_dict_nest_repeats and _flatten_dict in
 onadata/apps/logger/xform_instance_parser.py) and undoing it.
 */
module FlatDict {
  import opened Text
  import opened Grouping
  import opened XmlDict

  // ---------------------------------------------------------------- the dictionaries the parser builds

  /** A tag of an XML element. */
  predicate GoodName(name: string) {
    name != "" && '/' !in name && '[' !in name
  }

  predicate GoodNames(node: Node)
    decreases node
  {
    node.Element? ==> GoodName(node.tag) && forall c | c in node.children :: GoodNames(c)
  }

  ghost predicate ValidValue(v: Value)
    decreases v, 1
  {
    match v
    case Leaf(_) => true
    case Dict(entries) => entries != [] && ValidEntries(entries)
    case Many(items) => items != [] && forall item | item in items :: !item.Many? && ValidValue(item)
  }

  ghost predicate ValidEntries(entries: Entries)
    decreases entries, 0
  {
    && DistinctKeys(entries)
    && forall i | 0 <= i < |entries| :: GoodName(entries[i].0)
        && (assert entries decreases to entries[i]; ValidValue(entries[i].1))
  }

  lemma {:induction false} ParsedIsValid(node: Node, trail: seq<string>, repeats: seq<string>, encrypted: bool)
    requires GoodNames(node)
    ensures var v := ToValue(node, trail, repeats, encrypted); v.Some? ==> ValidValue(v.value)
    decreases node, 1
  {
    var children := node.Children();
    if !(children == [] || (|children| == 1 && children[0].Text?) || FirstCData(children).Some?) {
      var ps := Pairs(children, trail, repeats);
      PairsAreValid(children, trail, repeats);
      PairsAreNotLists(children, trail, repeats);
      BucketKeys(ps);
      CombinedIsValid(ps, Buckets(ps), trail, repeats, encrypted);
    }
  }

  lemma {:induction false} PairsAreValid(children: seq<Node>, trail: seq<string>, repeats: seq<string>)
    requires forall c :: c in children ==> GoodNames(c)
    ensures forall p :: p in Pairs(children, trail, repeats) ==> GoodName(p.0) && ValidValue(p.1)
    decreases children, 0
  {
    if children != [] {
      var c := children[0];
      assert c in children;
      ParsedIsValid(c, trail + [c.Name()], repeats, false);
      PairsAreValid(children[1..], trail, repeats);
    }
  }

  lemma {:induction false} SelectedFrom(ps: Entries, key: string)
    ensures forall v :: v in Select(ps, key) ==> (key, v) in ps
  {
    if ps != [] {
      SelectedFrom(ps[1..], key);
    }
  }

  lemma CombinedIsValid(ps: Entries, bs: seq<(string, seq<Value>)>, trail: seq<string>, repeats: seq<string>,
      encrypted: bool)
    requires forall p :: p in ps ==> GoodName(p.0) && ValidValue(p.1) && !p.1.Many?
    requires bs == Buckets(ps)
    ensures ValidEntries(Combined(bs, trail, repeats, encrypted))
  {
    BucketKeys(ps);
    CombinedAt(bs, trail, repeats, encrypted);
    var es := Combined(bs, trail, repeats, encrypted);
    forall i | 0 <= i < |es| ensures GoodName(es[i].0) && ValidValue(es[i].1) {
      var key := bs[i].0;
      GetAt(bs, i);
      BucketOf(ps, key);
      SelectedFrom(ps, key);
      assert bs[i].1 == Select(ps, key);
      assert (key, bs[i].1[0]) in ps;
    }
  }

  lemma {:induction false} CombinedAt(bs: seq<(string, seq<Value>)>, trail: seq<string>, repeats: seq<string>,
      encrypted: bool)
    ensures var es := Combined(bs, trail, repeats, encrypted);
      && |es| == |bs|
      && forall i :: 0 <= i < |es| ==>
           es[i] == (bs[i].0, Combine(bs[i].1, IsRepeat(trail, bs[i].0, repeats, encrypted)))
  {
    if bs != [] {
      CombinedAt(bs[1..], trail, repeats, encrypted);
    }
  }

  // ---------------------------------------------------------------- flattening, repeats kept as lists

  datatype FlatValue = Plain(value: Value) | Repeats(items: seq<FlatMap>)

  datatype FlatMap = FlatMap(entries: Flat)

  type Flat = seq<(string, FlatValue)>

  /** "/".join(path[1:]) */
  function Key(path: Path): string {
    if path == [] then "" else Join(path[1..], "/")
  }

  /** d.update(...) for one path and value after the other. */
  function Collect(ps: seq<(Path, FlatValue)>): Flat {
    if ps == [] then []
    else
      var n := |ps| - 1;
      Put(Collect(ps[..n]), Key(ps[n].0), ps[n].1)
  }

  function FlattenNest(entries: Entries, prefix: Path): seq<(Path, FlatValue)>
    decreases entries, 1
  {
    if entries == [] then []
    else
      assert entries decreases to entries[0];
      FlattenValue(entries[0].1, prefix + [entries[0].0]) + FlattenNest(entries[1..], prefix)
  }

  function FlattenValue(v: Value, path: Path): seq<(Path, FlatValue)>
    decreases v, 2
  {
    match v
    case Dict(entries) => FlattenNest(entries, path)
    case Many(items) => [(path, Repeats(FlattenItems(items, path)))]
    case Leaf(_) => [(path, Plain(v))]
  }

  function FlattenItems(items: seq<Value>, path: Path): seq<FlatMap>
    decreases items, 0
  {
    if items == [] then []
    else
      [FlatMap(if items[0].Dict? then Collect(FlattenNest(items[0].entries, path)) else [(Key(path), Plain(items[0]))])]
      + FlattenItems(items[1..], path)
  }

  // ---------------------------------------------------------------- undoing it

  /** Keys split back into paths. */
  datatype PathValue = PathPlain(value: Value) | PathRepeats(items: seq<PathMap>)

  datatype PathMap = PathMap(entries: Paths)

  type Paths = seq<(Path, PathValue)>

  function KeyPath(key: string, root: string): Path {
    [root] + if key == "" then [] else Split(key, '/')
  }

  function SplitKeys(flat: Flat, root: string): Paths
    decreases flat, 0
  {
    if flat == [] then []
    else
      assert flat decreases to flat[0];
      [(KeyPath(flat[0].0, root), SplitValue(flat[0].1, root))] + SplitKeys(flat[1..], root)
  }

  function SplitValue(v: FlatValue, root: string): PathValue
    decreases v, 1
  {
    match v
    case Plain(value) => PathPlain(value)
    case Repeats(items) => PathRepeats(SplitItems(items, root))
  }

  function SplitItems(items: seq<FlatMap>, root: string): seq<PathMap>
    decreases items, 0
  {
    if items == [] then [] else [PathMap(SplitKeys(items[0].entries, root))] + SplitItems(items[1..], root)
  }

  /** How many leading paths go through the same name at a depth. */
  function RunLength(ps: Paths, depth: nat, name: string): (n: nat)
    ensures n <= |ps|
    ensures forall i :: 0 <= i < n ==> |ps[i].0| > depth && ps[i].0[depth] == name
    ensures n < |ps| ==> !(|ps[n].0| > depth && ps[n].0[depth] == name)
  {
    if ps == [] || |ps[0].0| <= depth || ps[0].0[depth] != name then 0 else 1 + RunLength(ps[1..], depth, name)
  }

  function MaxLength(ps: Paths): (n: nat)
    ensures forall i :: 0 <= i < |ps| ==> |ps[i].0| <= n
  {
    if ps == [] then 0
    else
      var n := MaxLength(ps[1..]);
      if n < |ps[0].0| then |ps[0].0| else n
  }

  /** The nested dictionary: consecutive paths through one name belong to one value. */
  function Build(ps: Paths, depth: nat): Entries
    decreases ps, MaxLength(ps) - depth, 1
  {
    if ps == [] || |ps[0].0| <= depth then []
    else
      var name := ps[0].0[depth];
      var n := RunLength(ps, depth, name);
      assert n == |ps| ==> ps[..n] == ps;
      [(name, BuildRun(ps[..n], depth))] + Build(ps[n..], depth)
  }

  /** The value of the paths that go through one name. */
  function BuildRun(run: Paths, depth: nat): Value
    requires run != [] && |run[0].0| > depth
    decreases run, MaxLength(run) - depth, 0
  {
    if |run[0].0| > depth + 1 then Dict(Build(run, depth + 1))
    else
      assert run decreases to run[0];
      match run[0].1
      case PathPlain(value) => value
      case PathRepeats(items) => Many(BuildItems(items, depth + 1))
  }

  function BuildItems(items: seq<PathMap>, depth: nat): seq<Value>
    decreases items, 0
  {
    if items == [] then []
    else
      var item := items[0].entries;
      [if |item| == 1 && |item[0].0| == depth && item[0].1.PathPlain? then item[0].1.value
          else Dict(Build(item, depth))]
      + BuildItems(items[1..], depth)
  }

  function Unflatten(flat: Flat, root: string): Entries {
    Build(SplitKeys(flat, root), 0)
  }

  // ---------------------------------------------------------------- flattened paths are distinct

  predicate GoodPath(path: Path) {
    path != [] && forall i | 1 <= i < |path| :: path[i] != "" && '/' !in path[i]
  }

  lemma KeyPathKey(path: Path)
    requires GoodPath(path)
    ensures KeyPath(Key(path), path[0]) == path
  {
    var parts := path[1..];
    if parts != [] {
      forall p | p in parts ensures '/' !in p {
        var i :| 0 <= i < |parts| && parts[i] == p;
        assert path[i + 1] == p;
      }
      SplitJoin(parts, '/');
      assert parts[0] == path[1] && Join(parts, "/") != "" by {
        if |parts| > 1 {
          assert Join(parts, "/") == parts[0] + "/" + Join(parts[1..], "/");
        }
      }
    }
  }

  ghost predicate AllGood<V>(ps: seq<(Path, V)>) {
    forall i :: 0 <= i < |ps| ==> GoodPath(ps[i].0)
  }

  ghost predicate AllBelow<V>(ps: seq<(Path, V)>, path: Path) {
    forall i :: 0 <= i < |ps| ==> path <= ps[i].0
  }

  /** Every path goes on below the prefix, through one of the names. */
  ghost predicate AllThrough<V>(ps: seq<(Path, V)>, prefix: Path, entries: Entries) {
    forall i :: 0 <= i < |ps| ==> prefix < ps[i].0 && HasKey(entries, ps[i].0[|prefix|])
  }

  ghost predicate DistinctPaths<V>(ps: seq<(Path, V)>) {
    forall i, j :: 0 <= i < j < |ps| ==> ps[i].0 != ps[j].0
  }

  /** Every flattened path lies below the prefix, and no path occurs twice. */
  lemma {:induction false} FlatPaths(entries: Entries, prefix: Path)
    requires ValidEntries(entries) && (prefix == [] || GoodPath(prefix))
    ensures AllGood(FlattenNest(entries, prefix))
    ensures AllThrough(FlattenNest(entries, prefix), prefix, entries)
    ensures DistinctPaths(FlattenNest(entries, prefix))
    decreases entries, 1
  {
    if entries != [] {
      assert entries decreases to entries[0];
      var path := prefix + [entries[0].0];
      assert GoodName(entries[0].0) && GoodPath(path);
      FlatValuePaths(entries[0].1, path);
      FlatPaths(entries[1..], prefix);
    }
  }

  lemma {:induction false} FlatValuePaths(v: Value, path: Path)
    requires ValidValue(v) && GoodPath(path)
    ensures AllGood(FlattenValue(v, path)) && AllBelow(FlattenValue(v, path), path)
        && DistinctPaths(FlattenValue(v, path))
    decreases v, 2
  {
    if v.Dict? {
      FlatPaths(v.entries, path);
    }
  }

  // ---------------------------------------------------------------- the dictionary of joined paths

  function Keyed(ps: seq<(Path, FlatValue)>): Flat {
    if ps == [] then [] else [(Key(ps[0].0), ps[0].1)] + Keyed(ps[1..])
  }

  lemma {:induction false} KeyedAppend(ps: seq<(Path, FlatValue)>, qs: seq<(Path, FlatValue)>)
    ensures Keyed(ps + qs) == Keyed(ps) + Keyed(qs)
  {
    var all := ps + qs;
    if ps == [] {
      assert all == qs && [] + Keyed(qs) == Keyed(qs);
    } else {
      var first := [(Key(ps[0].0), ps[0].1)];
      assert all[0] == ps[0] && all[1..] == ps[1..] + qs;
      KeyedAppend(ps[1..], qs);
      assert first + (Keyed(ps[1..]) + Keyed(qs)) == (first + Keyed(ps[1..])) + Keyed(qs);
    }
  }

  lemma {:induction false} KeyedAt(ps: seq<(Path, FlatValue)>)
    ensures |Keyed(ps)| == |ps|
    ensures forall i :: 0 <= i < |ps| ==> Keyed(ps)[i] == (Key(ps[i].0), ps[i].1)
  {
    if ps != [] {
      KeyedAt(ps[1..]);
    }
  }

  /** With distinct keys nothing is overwritten: one entry per path, in order. */
  lemma {:induction false} CollectDistinct(ps: seq<(Path, FlatValue)>)
    requires forall i, j :: 0 <= i < j < |ps| ==> Key(ps[i].0) != Key(ps[j].0)
    ensures Collect(ps) == Keyed(ps)
  {
    if ps != [] {
      var n := |ps| - 1;
      CollectDistinct(ps[..n]);
      KeyedAt(ps[..n]);
      PutNew(Collect(ps[..n]), Key(ps[n].0), ps[n].1);
      KeyedAppend(ps[..n], ps[n..]);
      assert ps[..n] + ps[n..] == ps;
      assert ps[n..][1..] == [];
    }
  }

  /** The paths of a valid dictionary stay distinct when they are joined with "/" (without the root name). */
  lemma CollectIsKeyed(entries: Entries, prefix: Path)
    requires ValidEntries(entries) && GoodPath(prefix)
    ensures Collect(FlattenNest(entries, prefix)) == Keyed(FlattenNest(entries, prefix))
    ensures DistinctKeys(Keyed(FlattenNest(entries, prefix)))
  {
    var ps := FlattenNest(entries, prefix);
    FlatPaths(entries, prefix);
    forall i, j | 0 <= i < j < |ps| ensures Key(ps[i].0) != Key(ps[j].0) {
      KeyPathKey(ps[i].0);
      KeyPathKey(ps[j].0);
      assert ps[i].0[0] == prefix[0] && ps[j].0[0] == prefix[0];
    }
    CollectDistinct(ps);
    KeyedAt(ps);
  }

  // ---------------------------------------------------------------- splitting the keys back

  /** The flattening before paths are joined. */
  function PathFlat(entries: Entries, prefix: Path): Paths
    decreases entries, 1
  {
    if entries == [] then []
    else
      assert entries decreases to entries[0];
      PathFlatValue(entries[0].1, prefix + [entries[0].0]) + PathFlat(entries[1..], prefix)
  }

  function PathFlatValue(v: Value, path: Path): Paths
    decreases v, 2
  {
    match v
    case Dict(entries) => PathFlat(entries, path)
    case Many(items) => [(path, PathRepeats(PathFlatItems(items, path)))]
    case Leaf(_) => [(path, PathPlain(v))]
  }

  function PathFlatItems(items: seq<Value>, path: Path): seq<PathMap>
    decreases items, 0
  {
    if items == [] then []
    else
      [PathMap(if items[0].Dict? then PathFlat(items[0].entries, path) else [(path, PathPlain(items[0]))])]
      + PathFlatItems(items[1..], path)
  }

  lemma {:induction false} SplitKeysAppend(a: Flat, b: Flat, root: string)
    ensures SplitKeys(a + b, root) == SplitKeys(a, root) + SplitKeys(b, root)
  {
    var all := a + b;
    if a == [] {
      assert all == b && [] + SplitKeys(b, root) == SplitKeys(b, root);
    } else {
      var first := [(KeyPath(a[0].0, root), SplitValue(a[0].1, root))];
      assert all[0] == a[0] && all[1..] == a[1..] + b;
      SplitKeysAppend(a[1..], b, root);
      assert first + (SplitKeys(a[1..], root) + SplitKeys(b, root))
          == (first + SplitKeys(a[1..], root)) + SplitKeys(b, root);
    }
  }

  lemma {:induction false} SplitNest(entries: Entries, prefix: Path)
    requires ValidEntries(entries) && GoodPath(prefix)
    ensures SplitKeys(Keyed(FlattenNest(entries, prefix)), prefix[0]) == PathFlat(entries, prefix)
    decreases entries, 1
  {
    if entries != [] {
      assert entries decreases to entries[0];
      var path := prefix + [entries[0].0];
      assert GoodName(entries[0].0) && GoodPath(path);
      SplitFlatValue(entries[0].1, path);
      SplitNest(entries[1..], prefix);
      KeyedAppend(FlattenValue(entries[0].1, path), FlattenNest(entries[1..], prefix));
      SplitKeysAppend(Keyed(FlattenValue(entries[0].1, path)), Keyed(FlattenNest(entries[1..], prefix)), prefix[0]);
    }
  }

  lemma {:induction false} SplitFlatValue(v: Value, path: Path)
    requires ValidValue(v) && GoodPath(path)
    ensures SplitKeys(Keyed(FlattenValue(v, path)), path[0]) == PathFlatValue(v, path)
    decreases v, 2
  {
    match v
    case Dict(entries) => SplitNest(entries, path);
    case Many(items) =>
      KeyPathKey(path);
      SplitFlatItems(items, path);
      var one := [(path, Repeats(FlattenItems(items, path)))];
      assert Keyed(one) == [(Key(path), Repeats(FlattenItems(items, path)))] + Keyed(one[1..]);
      assert SplitKeys(Keyed(one)[1..], path[0]) == [];
    case Leaf(_) =>
      KeyPathKey(path);
      var one := [(path, Plain(v))];
      assert Keyed(one) == [(Key(path), Plain(v))] + Keyed(one[1..]);
      assert SplitKeys(Keyed(one)[1..], path[0]) == [];
  }

  lemma {:induction false} SplitFlatItems(items: seq<Value>, path: Path)
    requires GoodPath(path) && forall item :: item in items ==> !item.Many? && ValidValue(item)
    ensures SplitItems(FlattenItems(items, path), path[0]) == PathFlatItems(items, path)
    decreases items, 0
  {
    if items != [] {
      var item := items[0];
      assert item in items;
      SplitFlatItems(items[1..], path);
      var flat := FlattenItems(items, path);
      assert flat[1..] == FlattenItems(items[1..], path);
      if item.Dict? {
        SplitNest(item.entries, path);
        CollectIsKeyed(item.entries, path);
      } else {
        KeyPathKey(path);
        var one := [(Key(path), Plain(item))];
        assert SplitKeys(one[1..], path[0]) == [];
        assert SplitKeys(one, path[0]) == [(path, PathPlain(item))];
      }
    }
  }

  // ---------------------------------------------------------------- building the nesting back

  lemma {:induction false} PathFlatThrough(entries: Entries, prefix: Path)
    requires ValidEntries(entries)
    ensures var ps := PathFlat(entries, prefix);
      && (entries != [] ==> ps != [] && prefix + [entries[0].0] <= ps[0].0)
      && AllBelow(ps, prefix)
    decreases entries, 1
  {
    if entries != [] {
      assert entries decreases to entries[0];
      var path := prefix + [entries[0].0];
      var first, rest := PathFlatValue(entries[0].1, path), PathFlat(entries[1..], prefix);
      PathFlatValueBelow(entries[0].1, path);
      PathFlatThrough(entries[1..], prefix);
      assert path <= first[0].0;
      forall i | 0 <= i < |first| ensures prefix <= first[i].0 {
        assert path <= first[i].0;
      }
    }
  }

  lemma {:induction false} PathFlatValueBelow(v: Value, path: Path)
    requires ValidValue(v)
    ensures PathFlatValue(v, path) != [] && AllBelow(PathFlatValue(v, path), path)
    decreases v, 2
  {
    if v.Dict? {
      PathFlatThrough(v.entries, path);
    }
  }

  lemma {:induction false} RunIs(run: Paths, rest: Paths, depth: nat, name: string)
    requires forall i :: 0 <= i < |run| ==> |run[i].0| > depth && run[i].0[depth] == name
    requires rest != [] ==> |rest[0].0| > depth && rest[0].0[depth] != name
    ensures RunLength(run + rest, depth, name) == |run|
  {
    if run != [] {
      assert (run + rest)[1..] == run[1..] + rest;
      RunIs(run[1..], rest, depth, name);
    } else {
      assert run + rest == rest;
    }
  }

  /** One entry of the nesting is built from the run of its value, the others from the rest. */
  lemma BuildStep(run: Paths, rest: Paths, prefix: Path, name: string)
    requires AllBelow(run, prefix + [name]) && run != []
    requires rest != [] ==> |rest[0].0| > |prefix| && rest[0].0[|prefix|] != name
    ensures |run[0].0| > |prefix|
    ensures Build(run + rest, |prefix|) == [(name, BuildRun(run, |prefix|))] + Build(rest, |prefix|)
  {
    var depth, ps := |prefix|, run + rest;
    forall i | 0 <= i < |run|
      ensures |run[i].0| > depth && run[i].0[depth] == name
    {
      assert prefix + [name] <= run[i].0;
    }
    RunIs(run, rest, depth, name);
    assert ps[0] == run[0] && ps[..|run|] == run && ps[|run|..] == rest;
  }

  lemma {:induction false} BuildPathFlat(entries: Entries, prefix: Path)
    requires ValidEntries(entries)
    ensures Build(PathFlat(entries, prefix), |prefix|) == entries
    decreases entries, 1
  {
    if entries != [] {
      assert entries decreases to entries[0];
      var name, v := entries[0].0, entries[0].1;
      var path := prefix + [name];
      var run, rest := PathFlatValue(v, path), PathFlat(entries[1..], prefix);
      BuildValue(v, path);
      BuildPathFlat(entries[1..], prefix);
      PathFlatThrough(entries[1..], prefix);
      if |entries| > 1 {
        assert entries[1..][0] == entries[1] && name != entries[1].0;
        assert rest[0].0[|prefix|] == (prefix + [entries[1].0])[|prefix|];
      }
      BuildStep(run, rest, prefix, name);
      assert [(name, v)] + entries[1..] == entries;
    }
  }

  /** What Build makes of the run of one value. */
  lemma {:induction false} BuildValue(v: Value, path: Path)
    requires ValidValue(v) && path != []
    ensures var run := PathFlatValue(v, path);
            && run != [] && AllBelow(run, path) && |run[0].0| >= |path| && BuildRun(run, |path| - 1) == v
    decreases v, 2
  {
    PathFlatValueBelow(v, path);
    match v
    case Dict(entries) =>
      PathFlatThrough(entries, path);
      BuildPathFlat(entries, path);
    case Many(items) => BuildFlatItems(items, path);
    case Leaf(_) =>
  }

  lemma {:induction false} BuildFlatItems(items: seq<Value>, path: Path)
    requires path != [] && forall item :: item in items ==> !item.Many? && ValidValue(item)
    ensures BuildItems(PathFlatItems(items, path), |path|) == items
    decreases items, 0
  {
    if items != [] {
      var item := items[0];
      assert item in items;
      BuildFlatItems(items[1..], path);
      assert PathFlatItems(items, path)[1..] == PathFlatItems(items[1..], path);
      if item.Dict? {
        PathFlatThrough(item.entries, path);
        BuildPathFlat(item.entries, path);
      }
    }
  }

  /** Unflattening restores every dictionary that the parser can build. */
  lemma UnflattenFlatten(root: string, v: Value)
    requires ValidValue(v) && !v.Many?
    ensures Unflatten(Collect(FlattenNest([(root, v)], [])), root) == [(root, v)]
    ensures DistinctKeys(Collect(FlattenNest([(root, v)], [])))
  {
    var entries := [(root, v)];
    assert [] + [root] == [root];
    assert FlattenNest(entries, []) == FlattenValue(v, [root]) + FlattenNest(entries[1..], []);
    assert FlattenNest(entries, []) == FlattenValue(v, [root]);
    SplitFlatValue(v, [root]);
    if v.Dict? {
      CollectIsKeyed(v.entries, [root]);
    } else {
      CollectDistinct(FlattenValue(v, [root]));
    }
    BuildValue(v, [root]);
    BuildStep(PathFlatValue(v, [root]), [], [], root);
    assert PathFlatValue(v, [root]) + [] == PathFlatValue(v, [root]);
  }
}
