/**
 Flattening with an index on every repeated element but the first (_flatten_dict), and the parser object
 that ties tree, dictionary and flat dictionary together.
 */
module FlatIndexed {
  import opened Common
  import opened Text
  import opened Grouping
  import opened XmlDict
  import opened FlatDict
  import Leaves = XmlLeaves

  // ---------------------------------------------------------------- _flatten_dict

  /** XPath positions start at 1, and [1] is left out. */
  function IndexName(name: string, i: nat): string {
    if i == 0 then name else name + "[" + Decimal(i + 1) + "]"
  }

  function FlattenIndexed(entries: Entries, prefix: Path): seq<(Path, Value)>
    decreases entries, 1
  {
    if entries == [] then []
    else
      assert entries decreases to entries[0];
      IndexedValue(entries[0].1, prefix, entries[0].0) + FlattenIndexed(entries[1..], prefix)
  }

  function IndexedValue(v: Value, prefix: Path, name: string): seq<(Path, Value)>
    decreases v, 2
  {
    match v
    case Dict(entries) => FlattenIndexed(entries, prefix + [name])
    case Many(items) => IndexedItems(items, prefix, name, 0)
    case Leaf(_) => [(prefix + [name], v)]
  }

  function IndexedItems(items: seq<Value>, prefix: Path, name: string, i: nat): seq<(Path, Value)>
    decreases items, 0
  {
    if items == [] then []
    else
      var path := prefix + [IndexName(name, i)];
      (if items[0].Dict? then FlattenIndexed(items[0].entries, path) else [(path, items[0])])
      + IndexedItems(items[1..], prefix, name, i + 1)
  }

  // ---------------------------------------------------------------- the same leaves

  /** The name before an index. */
  function Strip(part: string): string {
    if part == "" || part[0] == '[' then "" else [part[0]] + Strip(part[1..])
  }

  function StripAll(path: Path): Path {
    if path == [] then [] else [Strip(path[0])] + StripAll(path[1..])
  }

  lemma {:induction false} StripIndexName(name: string, suffix: string)
    requires '[' !in name && (suffix == "" || suffix[0] == '[')
    ensures Strip(name + suffix) == name
  {
    if name == "" {
      assert name + suffix == suffix;
    } else {
      assert name[0] in name;
      assert (name + suffix)[1..] == name[1..] + suffix;
      StripIndexName(name[1..], suffix);
    }
  }

  lemma StripIndexed(name: string, i: nat)
    requires '[' !in name
    ensures Strip(IndexName(name, i)) == name
  {
    var suffix := if i == 0 then "" else "[" + Decimal(i + 1) + "]";
    assert IndexName(name, i) == name + suffix;
    StripIndexName(name, suffix);
  }

  lemma IndexNameInjective(name: string, i: nat, j: nat)
    requires IndexName(name, i) == IndexName(name, j)
    ensures i == j
  {
    var a, b := IndexName(name, i), IndexName(name, j);
    if i > 0 && j > 0 {
      assert a[|name| + 1..|a| - 1] == Decimal(i + 1);
      assert b[|name| + 1..|b| - 1] == Decimal(j + 1);
      DecimalInjective(i + 1, j + 1);
    }
  }

  lemma {:induction false} StripAllSnoc(path: Path, part: string)
    ensures StripAll(path + [part]) == StripAll(path) + [Strip(part)]
  {
    var all := path + [part];
    if path == [] {
      assert all[0] == part && all[1..] == [];
    } else {
      assert all[0] == path[0] && all[1..] == path[1..] + [part];
      StripAllSnoc(path[1..], part);
    }
  }

  /** The indexed leaves without their indices. */
  function Unindexed(ps: seq<(Path, Value)>): Leaves.Leaves {
    if ps == [] then []
    else [(StripAll(ps[0].0), if ps[0].1.Leaf? then ps[0].1.text else "")] + Unindexed(ps[1..])
  }

  lemma {:induction false} UnindexedAppend(a: seq<(Path, Value)>, b: seq<(Path, Value)>)
    ensures Unindexed(a + b) == Unindexed(a) + Unindexed(b)
  {
    var all := a + b;
    if a == [] {
      assert all == b && [] + Unindexed(b) == Unindexed(b);
    } else {
      var first := [(StripAll(a[0].0), if a[0].1.Leaf? then a[0].1.text else "")];
      assert all[0] == a[0] && all[1..] == a[1..] + b;
      UnindexedAppend(a[1..], b);
      assert first + (Unindexed(a[1..]) + Unindexed(b)) == (first + Unindexed(a[1..])) + Unindexed(b);
    }
  }

  lemma UnindexedOne(path: Path, v: Value)
    requires v.Leaf?
    ensures Unindexed([(path, v)]) == [(StripAll(path), v.text)]
  {}

  /** Indexed flattening enumerates the dictionary's leaves, in order, on paths that differ by indices only. */
  lemma {:induction false} SameLeavesIndexed(entries: Entries, prefix: Path)
    requires ValidEntries(entries)
    ensures Unindexed(FlattenIndexed(entries, prefix)) == Leaves.EntryLeaves(entries, StripAll(prefix))
    decreases entries, 1
  {
    if entries != [] {
      assert entries decreases to entries[0];
      assert GoodName(entries[0].0);
      SameLeavesIndexed(entries[1..], prefix);
      SameLeavesOfValue(entries[0].1, prefix, entries[0].0);
      UnindexedAppend(IndexedValue(entries[0].1, prefix, entries[0].0), FlattenIndexed(entries[1..], prefix));
    }
  }

  lemma {:induction false} SameLeavesOfValue(v: Value, prefix: Path, name: string)
    requires ValidValue(v) && GoodName(name)
    ensures Unindexed(IndexedValue(v, prefix, name)) == Leaves.ValueLeaves(v, StripAll(prefix) + [name])
    decreases v, 2
  {
    StripIndexed(name, 0);
    StripAllSnoc(prefix, name);
    match v
    case Dict(entries) => SameLeavesIndexed(entries, prefix + [name]);
    case Many(items) => SameLeavesOfItems(items, prefix, name, 0);
    case Leaf(_) => UnindexedOne(prefix + [name], v);
  }

  lemma {:induction false} SameLeavesOfItems(items: seq<Value>, prefix: Path, name: string, i: nat)
    requires GoodName(name) && forall item :: item in items ==> !item.Many? && ValidValue(item)
    ensures Unindexed(IndexedItems(items, prefix, name, i)) == Leaves.ItemLeaves(items, StripAll(prefix) + [name])
    decreases items, 0
  {
    if items != [] {
      var item := items[0];
      assert item in items;
      var path := prefix + [IndexName(name, i)];
      StripIndexed(name, i);
      StripAllSnoc(prefix, IndexName(name, i));
      SameLeavesOfItems(items[1..], prefix, name, i + 1);
      var first := if item.Dict? then FlattenIndexed(item.entries, path) else [(path, item)];
      if item.Dict? {
        SameLeavesIndexed(item.entries, path);
      } else {
        UnindexedOne(path, item);
      }
      UnindexedAppend(first, IndexedItems(items[1..], prefix, name, i + 1));
    }
  }

  // ---------------------------------------------------------------- distinct indexed paths

  /** At a depth, every path carries one of the names (perhaps with an index). */
  ghost predicate AllNamed(ps: seq<(Path, Value)>, depth: nat, entries: Entries) {
    forall i :: 0 <= i < |ps| ==> |ps[i].0| > depth && HasKey(entries, Strip(ps[i].0[depth]))
  }

  ghost predicate AllIndexed(ps: seq<(Path, Value)>, depth: nat, name: string, from: nat) {
    forall i :: 0 <= i < |ps| ==>
      |ps[i].0| > depth && exists j: nat :: j >= from && ps[i].0[depth] == IndexName(name, j)
  }

  lemma {:induction false} IndexedBelow(entries: Entries, prefix: Path)
    ensures AllBelow(FlattenIndexed(entries, prefix), prefix)
    decreases entries, 1
  {
    if entries != [] {
      assert entries decreases to entries[0];
      IndexedBelow(entries[1..], prefix);
      IndexedValueBelow(entries[0].1, prefix, entries[0].0);
    }
  }

  lemma {:induction false} IndexedValueBelow(v: Value, prefix: Path, name: string)
    ensures AllBelow(IndexedValue(v, prefix, name), prefix)
    ensures !v.Many? ==> AllBelow(IndexedValue(v, prefix, name), prefix + [name])
    decreases v, 2
  {
    match v
    case Dict(entries) =>
      IndexedBelow(entries, prefix + [name]);
      var ps := FlattenIndexed(entries, prefix + [name]);
      forall i | 0 <= i < |ps| ensures prefix <= ps[i].0 {
        assert prefix + [name] <= ps[i].0;
      }
    case Many(items) =>
      IndexedItemsBelow(items, prefix, name, 0);
    case Leaf(_) =>
  }

  lemma {:induction false} IndexedItemsBelow(items: seq<Value>, prefix: Path, name: string, i: nat)
    ensures AllBelow(IndexedItems(items, prefix, name, i), prefix)
    ensures AllIndexed(IndexedItems(items, prefix, name, i), |prefix|, name, i)
    decreases items, 0
  {
    if items != [] {
      var path := prefix + [IndexName(name, i)];
      var first := if items[0].Dict? then FlattenIndexed(items[0].entries, path) else [(path, items[0])];
      if items[0].Dict? {
        IndexedBelow(items[0].entries, path);
      }
      IndexedItemsBelow(items[1..], prefix, name, i + 1);
      forall k | 0 <= k < |first|
        ensures prefix <= first[k].0 && |first[k].0| > |prefix| && first[k].0[|prefix|] == IndexName(name, i)
      {
        assert path <= first[k].0;
        assert first[k].0[|prefix|] == path[|prefix|];
      }
    }
  }

  lemma ValueNamed(v: Value, prefix: Path, name: string)
    requires GoodName(name)
    ensures forall i :: 0 <= i < |IndexedValue(v, prefix, name)| ==>
      |IndexedValue(v, prefix, name)[i].0| > |prefix| && Strip(IndexedValue(v, prefix, name)[i].0[|prefix|]) == name
  {
    var ps := IndexedValue(v, prefix, name);
    IndexedValueBelow(v, prefix, name);
    if v.Many? {
      IndexedItemsBelow(v.items, prefix, name, 0);
      forall i | 0 <= i < |ps| ensures |ps[i].0| > |prefix| && Strip(ps[i].0[|prefix|]) == name {
        var j: nat :| ps[i].0[|prefix|] == IndexName(name, j);
        StripIndexed(name, j);
      }
    } else {
      forall i | 0 <= i < |ps| ensures |ps[i].0| > |prefix| && Strip(ps[i].0[|prefix|]) == name {
        assert prefix + [name] <= ps[i].0;
        assert ps[i].0[|prefix|] == (prefix + [name])[|prefix|];
        StripIndexed(name, 0);
      }
    }
  }

  /** The indexed paths are pairwise distinct. */
  lemma {:induction false} IndexedDistinct(entries: Entries, prefix: Path)
    requires ValidEntries(entries)
    ensures DistinctPaths(FlattenIndexed(entries, prefix))
    ensures AllNamed(FlattenIndexed(entries, prefix), |prefix|, entries)
    decreases entries, 1
  {
    if entries != [] {
      assert entries decreases to entries[0];
      assert GoodName(entries[0].0);
      var first, rest := IndexedValue(entries[0].1, prefix, entries[0].0), FlattenIndexed(entries[1..], prefix);
      IndexedValueDistinct(entries[0].1, prefix, entries[0].0);
      ValueNamed(entries[0].1, prefix, entries[0].0);
      IndexedDistinct(entries[1..], prefix);
      forall j | 0 <= j < |rest|
        ensures |rest[j].0| > |prefix| && Strip(rest[j].0[|prefix|]) != entries[0].0
        ensures HasKey(entries, Strip(rest[j].0[|prefix|]))
      {
        var k :| 0 <= k < |entries[1..]| && entries[1..][k].0 == Strip(rest[j].0[|prefix|]);
        assert entries[k + 1].0 == Strip(rest[j].0[|prefix|]);
      }
    }
  }

  lemma {:induction false} IndexedValueDistinct(v: Value, prefix: Path, name: string)
    requires ValidValue(v) && GoodName(name)
    ensures DistinctPaths(IndexedValue(v, prefix, name))
    decreases v, 2
  {
    match v
    case Dict(entries) => IndexedDistinct(entries, prefix + [name]);
    case Many(items) => IndexedItemsDistinct(items, prefix, name, 0);
    case Leaf(_) =>
  }

  ghost predicate AllAt(ps: seq<(Path, Value)>, at: nat, name: string) {
    forall k :: 0 <= k < |ps| ==> |ps[k].0| > at && ps[k].0[at] == name
  }

  ghost predicate NoneAt(ps: seq<(Path, Value)>, at: nat, name: string) {
    forall k :: 0 <= k < |ps| ==> |ps[k].0| > at && ps[k].0[at] != name
  }

  lemma DistinctAppend(first: seq<(Path, Value)>, rest: seq<(Path, Value)>, at: nat, name: string)
    requires DistinctPaths(first) && DistinctPaths(rest)
    requires AllAt(first, at, name) && NoneAt(rest, at, name)
    ensures DistinctPaths(first + rest)
  {}

  /** What belongs to the items after item i does not carry its index. */
  lemma {:induction false} ItemsApart(items: seq<Value>, prefix: Path, name: string, i: nat)
    ensures NoneAt(IndexedItems(items, prefix, name, i + 1), |prefix|, IndexName(name, i))
  {
    var rest := IndexedItems(items, prefix, name, i + 1);
    IndexedItemsBelow(items, prefix, name, i + 1);
    forall l | 0 <= l < |rest| ensures |rest[l].0| > |prefix| && rest[l].0[|prefix|] != IndexName(name, i) {
      var j: nat :| j >= i + 1 && rest[l].0[|prefix|] == IndexName(name, j);
      if IndexName(name, i) == IndexName(name, j) {
        IndexNameInjective(name, i, j);
      }
    }
  }

  lemma {:induction false} IndexedItemsDistinct(items: seq<Value>, prefix: Path, name: string, i: nat)
    requires GoodName(name) && forall item :: item in items ==> !item.Many? && ValidValue(item)
    ensures DistinctPaths(IndexedItems(items, prefix, name, i))
    decreases items, 0
  {
    if items != [] {
      assert items[0] in items;
      var path := prefix + [IndexName(name, i)];
      var first := if items[0].Dict? then FlattenIndexed(items[0].entries, path) else [(path, items[0])];
      if items[0].Dict? {
        IndexedDistinct(items[0].entries, path);
        IndexedBelow(items[0].entries, path);
      }
      IndexedItemsDistinct(items[1..], prefix, name, i + 1);
      ItemsApart(items[1..], prefix, name, i);
      forall k | 0 <= k < |first| ensures |first[k].0| > |prefix| && first[k].0[|prefix|] == IndexName(name, i) {
        assert path <= first[k].0 && first[k].0[|prefix|] == path[|prefix|];
      }
      DistinctAppend(first, IndexedItems(items[1..], prefix, name, i + 1), |prefix|, IndexName(name, i));
    }
  }

  // ---------------------------------------------------------------- what an indexed path leads to

  /** A part of a path: the entry's name for its value or the first of its list, the name and a number from 2 in
      brackets for the later ones. */
  ghost predicate LeadsTo(entry: (string, Value), part: string, v: Value) {
    match entry.1
    case Many(items) =>
      || (part == entry.0 && items != [] && v == items[0])
      || exists n: nat | 2 <= n <= |items| :: part == entry.0 + "[" + Decimal(n) + "]" && v == items[n - 1]
    case _ => part == entry.0 && v == entry.1
  }

  /** The parts of a path lead from dictionary to dictionary to a value. */
  ghost predicate Walks(entries: Entries, parts: Path, v: Value)
    decreases |parts|
  {
    parts != [] && exists entry, at ::
      && entry in entries && LeadsTo(entry, parts[0], at)
      && if at.Dict? then Walks(at.entries, parts[1..], v) else parts[1..] == [] && v == at
  }

  lemma WalksFrom(entries: Entries, entry: (string, Value), prefix: Path, part: string, at: Value, p: (Path, Value))
    requires entry in entries && LeadsTo(entry, part, at)
    requires if at.Dict? then prefix + [part] <= p.0 && Walks(at.entries, p.0[|prefix| + 1..], p.1)
             else p == (prefix + [part], at)
    ensures prefix <= p.0 && Walks(entries, p.0[|prefix|..], p.1)
  {
    assert p.0[..|prefix| + 1] == prefix + [part];
    assert p.0[|prefix|] == (prefix + [part])[|prefix|];
    assert p.0[|prefix|..][1..] == p.0[|prefix| + 1..];
  }

  lemma {:induction false} ValueWalks(entries: Entries, entry: (string, Value), prefix: Path, p: (Path, Value))
    requires entry in entries && p in IndexedValue(entry.1, prefix, entry.0)
    ensures prefix <= p.0 && Walks(entries, p.0[|prefix|..], p.1)
    decreases entry.1, 2
  {
    match entry.1
    case Dict(inner) =>
      IndexedWalks(inner, prefix + [entry.0], p);
      WalksFrom(entries, entry, prefix, entry.0, entry.1, p);
    case Many(items) => ItemWalks(entries, entry, items, prefix, 0, p);
    case Leaf(_) => WalksFrom(entries, entry, prefix, entry.0, entry.1, p);
  }

  lemma {:induction false} ItemWalks(entries: Entries, entry: (string, Value), items: seq<Value>, prefix: Path, i: nat,
      p: (Path, Value))
    requires entry in entries && entry.1.Many? && i <= |entry.1.items| && items == entry.1.items[i..]
    requires p in IndexedItems(items, prefix, entry.0, i)
    ensures prefix <= p.0 && Walks(entries, p.0[|prefix|..], p.1)
    decreases items, 0
  {
    var part := IndexName(entry.0, i);
    var path := prefix + [part];
    var first := if items[0].Dict? then FlattenIndexed(items[0].entries, path) else [(path, items[0])];
    if p in first {
      if items[0].Dict? {
        IndexedWalks(items[0].entries, path, p);
      }
      assert items[0] == entry.1.items[i];
      assert LeadsTo(entry, part, items[0]);
      WalksFrom(entries, entry, prefix, part, items[0], p);
    } else {
      ItemWalks(entries, entry, items[1..], prefix, i + 1, p);
    }
  }

  lemma {:induction false} EntriesWalk(all: Entries, entries: Entries, prefix: Path, p: (Path, Value))
    requires (forall entry :: entry in entries ==> entry in all) && p in FlattenIndexed(entries, prefix)
    ensures prefix <= p.0 && Walks(all, p.0[|prefix|..], p.1)
    decreases entries, 1
  {
    assert entries decreases to entries[0];
    if p in IndexedValue(entries[0].1, prefix, entries[0].0) {
      ValueWalks(all, entries[0], prefix, p);
    } else {
      EntriesWalk(all, entries[1..], prefix, p);
    }
  }

  /** Every path of the indexed flattening leads, part by part, to the value that stands there. */
  lemma {:induction false} IndexedWalks(entries: Entries, prefix: Path, p: (Path, Value))
    requires p in FlattenIndexed(entries, prefix)
    ensures prefix <= p.0 && Walks(entries, p.0[|prefix|..], p.1)
    decreases entries, 2
  {
    EntriesWalk(entries, entries, prefix, p);
  }

  // ---------------------------------------------------------------- the parser object

  class XFormInstanceParser {
    var dict: Option<Entries>
    var flatDict: Flat

    constructor ()
      ensures dict == None && flatDict == []
    {
      dict, flatDict := None, [];
    }

    /** False is InstanceEmptyError. repeats are the declared repeats' paths without the root name. */
    method Parse(root: Node, repeats: seq<string>, encrypted: bool) returns (ok: bool)
      modifies this
      ensures var v := ToValue(root, [root.Name()], repeats, encrypted);
        && (ok <==> v.Some?)
        && dict == (if v.None? then None else Some([(root.Name(), v.value)]))
        && flatDict == (if v.None? then [] else Collect(FlattenNest([(root.Name(), v.value)], [])))
    {
      dict := XmlNodeToDict(root, [root.Name()], repeats, encrypted);
      flatDict := [];
      if dict.None? {
        return false;
      }
      var built := dict.value;
      var ps := FlattenNest(built, []);
      var i := 0;
      while i < |ps|
        invariant 0 <= i <= |ps|
        invariant flatDict == Collect(ps[..i])
        invariant dict == Some(built)
      {
        assert ps[..i + 1][..i] == ps[..i];
        flatDict := Put(flatDict, Key(ps[i].0), ps[i].1);
        i := i + 1;
      }
      assert ps[..i] == ps;
      ok := true;
    }
  }

  /** From a lossless tree to the flat dictionary and back: the flat dictionary unflattens to a dictionary that
      holds at every path exactly the tree's texts there, in document order. */
  lemma FlatDictKeepsEverything(root: Node, repeats: seq<string>, encrypted: bool)
    requires root.Element? && GoodNames(root) && Leaves.Lossless(root)
    requires ToValue(root, [root.tag], repeats, encrypted).Some?
    ensures var v := ToValue(root, [root.tag], repeats, encrypted).value;
      var flat := Collect(FlattenNest([(root.tag, v)], []));
      && DistinctKeys(flat)
      && Unflatten(flat, root.tag) == [(root.tag, v)]
      && Leaves.SameLeaves(Leaves.EntryLeaves(Unflatten(flat, root.tag), []), Leaves.Texts(root, [root.tag]))
  {
    var v := ToValue(root, [root.tag], repeats, encrypted).value;
    ParsedIsValid(root, [root.tag], repeats, encrypted);
    UnflattenFlatten(root.tag, v);
    Leaves.LeavesKeptExactly(root, [root.tag], repeats, encrypted, [root.tag]);
    var es := [(root.tag, v)];
    assert es[1..] == [] && [] + [root.tag] == [root.tag];
    assert Leaves.EntryLeaves(es, []) == Leaves.ValueLeaves(v, [root.tag]) + Leaves.EntryLeaves(es[1..], []);
    assert Leaves.EntryLeaves(es, []) == Leaves.BuiltLeaves(root, [root.tag], repeats, encrypted, [root.tag]);
  }
}
