/**
 What the elements of a value hold: every text and every element, with its attributes, in document order and with the
 names around it, read off the value itself (_to_xml in onadata/libs/renderers/renderers.py).
 */
module StreamMarks {
  import opened Common
  import opened StreamXml
  import opened StreamRender

  type Path = seq<string>

  /** An element that begins, or a text. */
  datatype Mark = Opened(attributes: seq<(string, Value)>) | Said(text: string)

  type Marks = seq<(Path, Mark)>

  /** A forest's marks. */
  function MarksOf(xs: seq<Xml>, path: Path): Marks {
    if xs == [] then []
    else
      (match xs[0]
       case Chars(s) => [(path, Said(s))]
       case Element(name, attributes, children) =>
         [(path + [name], Opened(attributes))] + MarksOf(children, path + [name]))
      + MarksOf(xs[1..], path)
  }

  // ---------------------------------------------------------------- the marks of a value

  /** A text says itself and null nothing; a list opens the item element for each item, a dictionary an element for each
      key. */
  function ValueMarks(k: Kind, v: Value, path: Path): Marks
    decreases v, 1
  {
    match v
    case Null => []
    case Text(s) => [(path, Said(s))]
    case List(items) => ItemMarks(k, items, k.Instances?, path)
    case Dict(entries) => EntryMarks(k, entries, false, path)
  }

  /** The items of a list; popped ones have their "@" entries as attributes. */
  function ItemMarks(k: Kind, items: seq<Value>, popped: bool, path: Path): Marks
    decreases items, 0
  {
    if items == [] then []
    else ElementMarks(k, items[0], popped, path + [k.element]) + ItemMarks(k, items[1..], popped, path)
  }

  function ElementMarks(k: Kind, v: Value, popped: bool, path: Path): Marks
    decreases v, 2
  {
    if !popped then [(path, Opened([]))] + ValueMarks(k, v, path)
    else match v
      case Dict(entries) => [(path, Opened(Attributes(entries)))] + EntryMarks(k, entries, true, path)
      case _ => [(path, Opened([]))]
  }

  predicate StartsAt(key: string) { key != "" && key[0] == '@' }

  /** A dictionary's entries in order, without the "@" ones if these are attributes. */
  function EntryMarks(k: Kind, entries: seq<(string, Value)>, popped: bool, path: Path): Marks
    decreases entries, 0
  {
    if entries == [] then []
    else
      assert entries decreases to entries[0];
      EntryMark(k, entries[0], popped, path) + EntryMarks(k, entries[1..], popped, path)
  }

  function EntryMark(k: Kind, e: (string, Value), popped: bool, path: Path): Marks
    decreases e, 0
  {
    if popped && StartsAt(e.0) then [] else KeyMarks(k, e.0, e.1, path)
  }

  /** One key. Form lists leave out nulls but for five keys; submissions give each item of a list an element of the key,
      open the dictionary's own attributes, and put what has no key where they are. */
  function KeyMarks(k: Kind, key: string, v: Value, path: Path): Marks
    decreases v, 3
  {
    if k.Forms? then
      if v.Null? && key !in {"formID", "name", "version", "hash", "downloadUrl"} then []
      else ElementMarks(k, v, false, path + [key])
    else if key == "" then ValueMarks(k, v, path)
    else match v
      case List(items) => EachMarks(k, items, path + [key])
      case Dict(_) => ElementMarks(k, v, true, path + [key])
      case _ => ElementMarks(k, v, false, path + [key])
  }

  function EachMarks(k: Kind, items: seq<Value>, path: Path): Marks
    decreases items, 0
  {
    if items == [] then [] else ElementMarks(k, items[0], false, path) + EachMarks(k, items[1..], path)
  }

  // ---------------------------------------------------------------- appending

  lemma {:induction false} MarksAppend(xs: seq<Xml>, ys: seq<Xml>, path: Path)
    ensures MarksOf(xs + ys, path) == MarksOf(xs, path) + MarksOf(ys, path)
    decreases |xs|
  {
    if xs == [] {
      assert xs + ys == ys;
    } else {
      assert (xs + ys)[0] == xs[0] && (xs + ys)[1..] == xs[1..] + ys;
      MarksAppend(xs[1..], ys, path);
    }
  }

  lemma {:induction false} ItemsSnoc(k: Kind, items: seq<Value>, v: Value, popped: bool, path: Path)
    ensures ItemMarks(k, items + [v], popped, path)
         == ItemMarks(k, items, popped, path) + ElementMarks(k, v, popped, path + [k.element])
    decreases |items|
  {
    var all := items + [v];
    if items == [] {
      assert all[0] == v && all[1..] == [];
    } else {
      assert all[0] == items[0] && all[1..] == items[1..] + [v];
      ItemsSnoc(k, items[1..], v, popped, path);
    }
  }

  lemma {:induction false} EachSnoc(k: Kind, items: seq<Value>, v: Value, path: Path)
    ensures EachMarks(k, items + [v], path) == EachMarks(k, items, path) + ElementMarks(k, v, false, path)
    decreases |items|
  {
    var all := items + [v];
    if items == [] {
      assert all[0] == v && all[1..] == [];
    } else {
      assert all[0] == items[0] && all[1..] == items[1..] + [v];
      EachSnoc(k, items[1..], v, path);
    }
  }

  lemma {:induction false} EntriesSnoc(k: Kind, entries: seq<(string, Value)>, e: (string, Value), popped: bool,
      path: Path)
    ensures EntryMarks(k, entries + [e], popped, path)
         == EntryMarks(k, entries, popped, path) + EntryMark(k, e, popped, path)
    decreases |entries|
  {
    var all, last := entries + [e], EntryMark(k, e, popped, path);
    if entries == [] {
      assert all == [e];
      EntriesFirst(k, e, [], popped, path);
      assert last + [] == last && [] + last == last;
    } else {
      assert all == [entries[0]] + (entries[1..] + [e]) && entries == [entries[0]] + entries[1..];
      EntriesFirst(k, entries[0], entries[1..] + [e], popped, path);
      EntriesFirst(k, entries[0], entries[1..], popped, path);
      EntriesSnoc(k, entries[1..], e, popped, path);
      Associates(EntryMark(k, entries[0], popped, path), EntryMarks(k, entries[1..], popped, path), last);
    }
  }

  lemma EntriesFirst(k: Kind, e: (string, Value), rest: seq<(string, Value)>, popped: bool, path: Path)
    ensures EntryMarks(k, [e] + rest, popped, path) == EntryMark(k, e, popped, path) + EntryMarks(k, rest, popped, path)
  {
    assert ([e] + rest)[1..] == rest;
  }

  // ---------------------------------------------------------------- the elements hold exactly these

  lemma OneElement(name: string, attributes: seq<(string, Value)>, children: seq<Xml>, path: Path)
    ensures MarksOf([Element(name, attributes, children)], path)
         == [(path + [name], Opened(attributes))] + MarksOf(children, path + [name])
  {
    assert [Element(name, attributes, children)][1..] == [];
  }

  /** The forest of a value has the value's marks: every text stands, escaped by nothing but XML, under its keys. */
  lemma {:induction false} ForestMarks(k: Kind, v: Value, path: Path)
    ensures MarksOf(Forest(k, v), path) == ValueMarks(k, v, path)
    decreases Size(v), 0
  {
    match v
    case Null =>
    case Text(s) => assert [Chars(s)][1..] == [];
    case List(items) => ItemForestMarks(k, items, path);
    case Dict(entries) => FieldsMarks(k, entries, path);
  }

  lemma {:induction false} ItemForestMarks(k: Kind, items: seq<Value>, path: Path)
    ensures MarksOf(ItemForest(k, items), path) == ItemMarks(k, items, k.Instances?, path)
    decreases ItemsSize(items), 0
  {
    if items != [] {
      var n := |items| - 1;
      ItemForestMarks(k, items[..n], path);
      assert items == items[..n] + [items[n]];
      ItemsSnoc(k, items[..n], items[n], k.Instances?, path);
      if k.Instances? {
        PoppedMarks(k, k.element, items[n], path);
      } else {
        PlainMarks(k, k.element, items[n], path);
      }
      MarksAppend(ItemForest(k, items[..n]), [ItemElement(k, items[n])], path);
    }
  }

  lemma {:induction false} PlainMarks(k: Kind, name: string, v: Value, path: Path)
    ensures MarksOf([Element(name, [], Forest(k, v))], path) == ElementMarks(k, v, false, path + [name])
    decreases Size(v), 1
  {
    ForestMarks(k, v, path + [name]);
    OneElement(name, [], Forest(k, v), path);
  }

  lemma {:induction false} PoppedMarks(k: Kind, name: string, v: Value, path: Path)
    ensures MarksOf([Popped(k, name, v)], path) == ElementMarks(k, v, true, path + [name])
    decreases Size(v), 1
  {
    if v.Dict? {
      WithoutAttributes(k, v.entries, path + [name]);
      OneElement(name, Attributes(v.entries), Fields(k, Plain(v.entries)), path);
    } else {
      OneElement(name, [], [], path);
    }
  }

  lemma {:induction false} FieldsMarks(k: Kind, entries: seq<(string, Value)>, path: Path)
    ensures MarksOf(Fields(k, entries), path) == EntryMarks(k, entries, false, path)
    decreases EntriesSize(entries), 0
  {
    if entries != [] {
      var n := |entries| - 1;
      var e := entries[n];
      FieldsMarks(k, entries[..n], path);
      assert entries == entries[..n] + [e];
      EntriesSnoc(k, entries[..n], e, false, path);
      FieldMarks(k, e.0, e.1, path);
      MarksAppend(Fields(k, entries[..n]), Field(k, e.0, e.1), path);
    }
  }

  lemma FieldsSnoc(k: Kind, before: seq<(string, Value)>, e: (string, Value), path: Path)
    ensures MarksOf(Fields(k, before + [e]), path) == MarksOf(Fields(k, before), path)
        + MarksOf(Field(k, e.0, e.1), path)
  {
    assert (before + [e])[..|before|] == before;
    MarksAppend(Fields(k, before), Field(k, e.0, e.1), path);
  }

  lemma PlainSnoc(entries: seq<(string, Value)>)
    requires entries != []
    ensures var n := |entries| - 1;
            Plain(entries) == Plain(entries[..n]) + if IsAttribute(entries[n].0) then [] else [entries[n]]
  {}

  lemma {:induction false} WithoutAttributes(k: Kind, entries: seq<(string, Value)>, path: Path)
    ensures MarksOf(Fields(k, Plain(entries)), path) == EntryMarks(k, entries, true, path)
    decreases EntriesSize(entries), 0
  {
    if entries != [] {
      var n := |entries| - 1;
      var e, before := entries[n], Plain(entries[..n]);
      WithoutAttributes(k, entries[..n], path);
      PlainSnoc(entries);
      assert entries == entries[..n] + [e];
      EntriesSnoc(k, entries[..n], e, true, path);
      if IsAttribute(e.0) {
        assert before + [] == before;
      } else {
        FieldMarks(k, e.0, e.1, path);
        FieldsSnoc(k, before, e, path);
      }
    }
  }

  lemma {:induction false} FieldMarks(k: Kind, key: string, v: Value, path: Path)
    ensures MarksOf(Field(k, key, v), path) == KeyMarks(k, key, v, path)
    decreases Size(v), 2
  {
    if k.Forms? {
      if !(v.Null? && key !in MANDATORY) {
        PlainMarks(k, key, v, path);
      }
    } else if key == "" {
      ForestMarks(k, v, path);
    } else {
      match v
      case List(items) => RepeatedMarks(k, key, items, path);
      case Dict(_) => PoppedMarks(k, key, v, path);
      case _ => PlainMarks(k, key, v, path);
    }
  }

  lemma {:induction false} RepeatedMarks(k: Kind, key: string, items: seq<Value>, path: Path)
    ensures MarksOf(Repeated(k, key, items), path) == EachMarks(k, items, path + [key])
    decreases ItemsSize(items), 0
  {
    if items != [] {
      var n := |items| - 1;
      RepeatedMarks(k, key, items[..n], path);
      assert items == items[..n] + [items[n]];
      EachSnoc(k, items[..n], items[n], path + [key]);
      PlainMarks(k, key, items[n], path);
      MarksAppend(Repeated(k, key, items[..n]), [Element(key, [], Forest(k, items[n]))], path);
    }
  }

  // ---------------------------------------------------------------- documents

  /** Reading a document that is rendered at once gives the root, and in it exactly what the items hold. */
  lemma RenderedHolds(k: Kind, attributes: seq<(string, Value)>, items: seq<Value>)
    ensures var read := Read([Declaration] + Tokens([Element(k.root, attributes, ItemForest(k, items))]),
        [Frame("", [], [])]);
            && read.Some?
            && MarksOf(read.value, [])
               == [([k.root], Opened(attributes))] + ItemMarks(k, items, k.Instances?, [k.root])
  {
    DocumentReadsBack(k, attributes, ItemForest(k, items));
    ItemForestMarks(k, items, [k.root]);
    OneElement(k.root, attributes, ItemForest(k, items), []);
    assert [] + [k.root] == [k.root];
  }

  lemma {:induction false} StreamedMarks(k: Kind, items: seq<Item>, path: Path)
    ensures MarksOf(Streamed(k, items), path) == ItemMarks(k, Values(items), true, path)
  {
    if items != [] {
      var n := |items| - 1;
      StreamedMarks(k, items[..n], path);
      assert Values(items) == Values(items[..n]) + [items[n].value];
      ItemsSnoc(k, Values(items[..n]), items[n].value, true, path);
      PoppedMarks(k, k.element, items[n].value, path);
      MarksAppend(Streamed(k, items[..n]), [Popped(k, k.element, items[n].value)], path);
    }
  }

  /** Reading a streamed document: the same, with the "@" entries of each item as its attributes. */
  lemma StreamHolds(k: Kind, attributes: seq<(string, Value)>, items: seq<Item>)
    ensures var read := Read([Declaration] + Tokens([Element(k.root, attributes, Streamed(k, items))]),
        [Frame("", [], [])]);
            && read.Some?
            && MarksOf(read.value, [])
               == [([k.root], Opened(attributes))] + ItemMarks(k, Values(items), true, [k.root])
  {
    DocumentReadsBack(k, attributes, Streamed(k, items));
    StreamedMarks(k, items, [k.root]);
    OneElement(k.root, attributes, Streamed(k, items), []);
    assert [] + [k.root] == [k.root];
  }
}
