/**
 The XML renderers of onadata/libs/renderers/renderers.py: data turned into elements, written either at once
 or item by item through one reused text buffer.
 */
module StreamXml {
  import opened Common
  import opened Grouping

  /** What the serializers return. */
  datatype Value = Null | Text(text: string) | List(items: seq<Value>) | Dict(entries: seq<(string, Value)>)

  /** An XML forest; attribute values are the dictionary's own values. */
  datatype Xml = Chars(text: string) | Element(name: string, attributes: seq<(string, Value)>, children: seq<Xml>)

  datatype Token =
    | Declaration | Open(name: string, attributes: seq<(string, Value)>) | Data(text: string) | Close(name: string)

  /** The two families of renderers: submissions, and form lists or manifests. */
  datatype Kind = Instances(root: string, element: string) | Forms(root: string, element: string)

  /** A queued item: its truth value, and what the serializer makes of it. */
  datatype Item = Item(truthy: bool, value: Value)

  // ---------------------------------------------------------------- attributes

  predicate IsAttribute(key: string) {
    |key| > 0 && key[0] == '@'
  }

  /** key.replace("@", "") */
  function Stripped(key: string): string {
    if key == "" then "" else (if key[0] == '@' then "" else [key[0]]) + Stripped(key[1..])
  }

  function Attributes(entries: seq<(string, Value)>): seq<(string, Value)> {
    if entries == [] then []
    else
      var last, before := entries[|entries| - 1], Attributes(entries[..|entries| - 1]);
      if IsAttribute(last.0) then Put(before, Stripped(last.0), last.1) else before
  }

  function Plain(entries: seq<(string, Value)>): (r: seq<(string, Value)>)
    ensures EntriesSize(r) <= EntriesSize(entries)
    ensures forall i :: 0 <= i < |r| ==> !IsAttribute(r[i].0)
  {
    if entries == [] then []
    else
      var last, before := entries[|entries| - 1], Plain(entries[..|entries| - 1]);
      if IsAttribute(last.0) then before
      else
        assert (before + [last])[..|before|] == before;
        before + [last]
  }

  function Size(v: Value): nat {
    match v
    case List(items) => 1 + ItemsSize(items)
    case Dict(entries) => 1 + EntriesSize(entries)
    case _ => 1
  }

  function ItemsSize(items: seq<Value>): nat {
    if items == [] then 0 else 1 + ItemsSize(items[..|items| - 1]) + Size(items[|items| - 1])
  }

  function EntriesSize(entries: seq<(string, Value)>): nat {
    if entries == [] then 0
    else
      assert entries decreases to entries[|entries| - 1];
      1 + EntriesSize(entries[..|entries| - 1]) + Size(entries[|entries| - 1].1)
  }

  // ---------------------------------------------------------------- the elements of a value

  const MANDATORY: seq<string> := ["formID", "name", "version", "hash", "downloadUrl"]

  function Forest(k: Kind, v: Value): seq<Xml>
    decreases Size(v), 0
  {
    match v
    case Null => []
    case Text(s) => [Chars(s)]
    case List(items) => ItemForest(k, items)
    case Dict(entries) => Fields(k, entries)
  }

  function ItemForest(k: Kind, items: seq<Value>): seq<Xml>
    decreases ItemsSize(items), 0
  {
    if items == [] then []
    else ItemForest(k, items[..|items| - 1]) +
         [if k.Instances? then Popped(k, k.element, items[|items| - 1])
          else Element(k.element, [], Forest(k, items[|items| - 1]))]
  }

  /** An element whose attributes are the "@" entries of its dictionary. */
  function Popped(k: Kind, name: string, v: Value): Xml
    decreases Size(v), 1
  {
    match v
    case Dict(entries) => Element(name, Attributes(entries), Fields(k, Plain(entries)))
    case _ => Element(name, [], [])
  }

  function Fields(k: Kind, entries: seq<(string, Value)>): seq<Xml>
    decreases EntriesSize(entries), 0
  {
    if entries == [] then []
    else Fields(k, entries[..|entries| - 1]) + Field(k, entries[|entries| - 1].0, entries[|entries| - 1].1)
  }

  function Field(k: Kind, key: string, v: Value): seq<Xml>
    decreases Size(v), 2
  {
    if k.Forms? then
      if v.Null? && key !in MANDATORY then [] else [Element(key, [], Forest(k, v))]
    else if key == "" then Forest(k, v)
    else match v
      case List(items) => Repeated(k, key, items)
      case Dict(_) => [Popped(k, key, v)]
      case _ => [Element(key, [], Forest(k, v))]
  }

  function Repeated(k: Kind, key: string, items: seq<Value>): seq<Xml>
    decreases ItemsSize(items), 0
  {
    if items == [] then []
    else Repeated(k, key, items[..|items| - 1]) + [Element(key, [], Forest(k, items[|items| - 1]))]
  }

  // ---------------------------------------------------------------- values the renderers do not accept

  predicate TextValues(attributes: seq<(string, Value)>) {
    forall i :: 0 <= i < |attributes| ==> attributes[i].1.Text?
  }

  /** No list element without an entry view, no attribute that is not text. */
  predicate Accepted(k: Kind, v: Value)
    decreases Size(v), 0
  {
    match v
    case List(items) => ItemsAccepted(k, items)
    case Dict(entries) => FieldsAccepted(k, entries)
    case _ => true
  }

  predicate ItemsAccepted(k: Kind, items: seq<Value>)
    decreases ItemsSize(items), 0
  {
    items == [] ||
    (&& ItemsAccepted(k, items[..|items| - 1])
     && if k.Instances? then PoppedAccepted(k, items[|items| - 1]) else Accepted(k, items[|items| - 1]))
  }

  predicate PoppedAccepted(k: Kind, v: Value)
    decreases Size(v), 1
  {
    v.Dict? && TextValues(Attributes(v.entries)) && FieldsAccepted(k, Plain(v.entries))
  }

  predicate FieldsAccepted(k: Kind, entries: seq<(string, Value)>)
    decreases EntriesSize(entries), 0
  {
    entries == [] ||
    (&& FieldsAccepted(k, entries[..|entries| - 1])
     && FieldAccepted(k, entries[|entries| - 1].0, entries[|entries| - 1].1))
  }

  predicate FieldAccepted(k: Kind, key: string, v: Value)
    decreases Size(v), 2
  {
    if k.Forms? then (v.Null? && key !in MANDATORY) || Accepted(k, v)
    else if key == "" then Accepted(k, v)
    else match v
      case List(items) => RepeatedAccepted(k, items)
      case Dict(_) => PoppedAccepted(k, v)
      case _ => true
  }

  predicate RepeatedAccepted(k: Kind, items: seq<Value>)
    decreases ItemsSize(items), 0
  {
    items == [] || (RepeatedAccepted(k, items[..|items| - 1]) && Accepted(k, items[|items| - 1]))
  }

  // ---------------------------------------------------------------- tokens and text

  function Tokens(xs: seq<Xml>): seq<Token> {
    if xs == [] then [] else TokensOf(xs[0]) + Tokens(xs[1..])
  }

  function TokensOf(x: Xml): seq<Token> {
    match x
    case Chars(s) => [Data(s)]
    case Element(name, attributes, children) => [Open(name, attributes)] + Tokens(children) + [Close(name)]
  }

  function Escape(s: string): string {
    if s == "" then ""
    else (match s[0]
          case '&' => "&amp;" case '<' => "&lt;" case '>' => "&gt;" case _ => [s[0]]) + Escape(s[1..])
  }

  /** quoteattr, always with double quotes. */
  function Quote(s: string): string {
    if s == "" then ""
    else (match s[0]
          case '"' => "&quot;" case '\n' => "&#10;" case '\r' => "&#13;" case '\t' => "&#9;" case _ => [s[0]])
         + Quote(s[1..])
  }

  function Assignments(attributes: seq<(string, Value)>): string {
    if attributes == [] then ""
    else
      var (name, v) := attributes[0];
      " " + name + "=\"" + (if v.Text? then Quote(Escape(v.text)) else "") + "\"" + Assignments(attributes[1..])
  }

  const PROLOG := "<?xml version=\"1.0\" encoding=\"utf-8\"?>"

  function Written(t: Token): (s: string)
    ensures t.Open? ==> s != ""
  {
    match t
    case Declaration => PROLOG + "\n"
    case Open(name, attributes) => "<" + name + Assignments(attributes) + ">"
    case Data(s) => Escape(s)
    case Close(name) => "</" + name + ">"
  }

  function Print(ts: seq<Token>): string {
    if ts == [] then "" else Written(ts[0]) + Print(ts[1..])
  }

  function Content(xs: seq<Xml>): string {
    Print(Tokens(xs))
  }

  /** The text of a whole document. */
  function Document(k: Kind, attributes: seq<(string, Value)>, items: seq<Xml>): string {
    Print([Declaration] + Tokens([Element(k.root, attributes, items)]))
  }

  lemma {:induction false} PrintAppend(ss: seq<Token>, ts: seq<Token>)
    ensures Print(ss + ts) == Print(ss) + Print(ts)
  {
    var all := ss + ts;
    if ss == [] {
      assert all == ts && "" + Print(ts) == Print(ts);
    } else {
      assert all[0] == ss[0] && all[1..] == ss[1..] + ts;
      PrintAppend(ss[1..], ts);
      assert Written(ss[0]) + (Print(ss[1..]) + Print(ts)) == (Written(ss[0]) + Print(ss[1..])) + Print(ts);
    }
  }

  lemma {:induction false} TokensAppend(xs: seq<Xml>, ys: seq<Xml>)
    ensures Tokens(xs + ys) == Tokens(xs) + Tokens(ys)
  {
    var all := xs + ys;
    if xs == [] {
      assert all == ys && [] + Tokens(ys) == Tokens(ys);
    } else {
      assert all[0] == xs[0] && all[1..] == xs[1..] + ys;
      TokensAppend(xs[1..], ys);
      assert TokensOf(xs[0]) + (Tokens(xs[1..]) + Tokens(ys)) == (TokensOf(xs[0]) + Tokens(xs[1..])) + Tokens(ys);
    }
  }

  lemma ContentAppend(xs: seq<Xml>, ys: seq<Xml>)
    ensures Content(xs + ys) == Content(xs) + Content(ys)
  {
    TokensAppend(xs, ys);
    PrintAppend(Tokens(xs), Tokens(ys));
  }

  lemma PrintOne(t: Token)
    ensures Print([t]) == Written(t)
  {}

  /** An element's text: its start tag, its content, its end tag. */
  lemma ElementText(name: string, attributes: seq<(string, Value)>, children: seq<Xml>)
    ensures Content([Element(name, attributes, children)])
         == Written(Open(name, attributes)) + Content(children) + Written(Close(name))
  {
    var x := Element(name, attributes, children);
    assert [x][1..] == [] && TokensOf(x) + [] == TokensOf(x);
    assert Tokens([x]) == TokensOf(x);
    PrintOne(Open(name, attributes));
    PrintOne(Close(name));
    PrintAppend([Open(name, attributes)], Tokens(children));
    PrintAppend([Open(name, attributes)] + Tokens(children), [Close(name)]);
  }

  lemma DocumentText(k: Kind, attributes: seq<(string, Value)>, items: seq<Xml>)
    ensures Document(k, attributes, items)
         == Written(Declaration) + (Written(Open(k.root, attributes)) + Content(items) + Written(Close(k.root)))
  {
    PrintOne(Declaration);
    PrintAppend([Declaration], Tokens([Element(k.root, attributes, items)]));
    ElementText(k.root, attributes, items);
  }

  // ---------------------------------------------------------------- reading the tokens back

  datatype Frame = Frame(name: string, attributes: seq<(string, Value)>, children: seq<Xml>)

  /** A reader of well nested tokens; the last frame is the innermost open element, the first one the outside. */
  function Read(ts: seq<Token>, frames: seq<Frame>): Option<seq<Xml>> {
    if frames == [] then None
    else
      var n := |frames| - 1;
      if ts == [] then if n == 0 then Some(frames[0].children) else None
      else match ts[0]
        case Declaration => Read(ts[1..], frames)
        case Open(name, attributes) => Read(ts[1..], frames + [Frame(name, attributes, [])])
        case Data(s) => Read(ts[1..], frames[..n] + [Grown(frames[n], [Chars(s)])])
        case Close(name) =>
          if n == 0 || frames[n].name != name then None
          else Read(ts[1..], frames[..n - 1] +
                             [Grown(frames[n - 1], [Element(name, frames[n].attributes, frames[n].children)])])
  }

  function Grown(f: Frame, xs: seq<Xml>): Frame {
    f.(children := f.children + xs)
  }

  lemma {:induction false} ReadsForest(xs: seq<Xml>, rest: seq<Token>, frames: seq<Frame>, f: Frame)
    ensures Read(Tokens(xs) + rest, frames + [f]) == Read(rest, frames + [Grown(f, xs)])
    decreases xs
  {
    if xs == [] {
      assert Tokens(xs) + rest == rest && Grown(f, xs) == f;
    } else {
      assert Tokens(xs) + rest == TokensOf(xs[0]) + (Tokens(xs[1..]) + rest);
      ReadsOne(xs[0], Tokens(xs[1..]) + rest, frames, f);
      ReadsForest(xs[1..], rest, frames, Grown(f, [xs[0]]));
      assert f.children + [xs[0]] + xs[1..] == f.children + xs;
    }
  }

  lemma {:induction false} ReadsOne(x: Xml, rest: seq<Token>, frames: seq<Frame>, f: Frame)
    ensures Read(TokensOf(x) + rest, frames + [f]) == Read(rest, frames + [Grown(f, [x])])
    decreases x
  {
    var all, stack := TokensOf(x) + rest, frames + [f];
    match x
    case Chars(s) =>
      assert all[0] == Data(s) && all[1..] == rest;
      assert stack[..|stack| - 1] == frames;
    case Element(name, attributes, children) =>
      var after := [Close(name)] + rest;
      assert all[0] == Open(name, attributes) && all[1..] == Tokens(children) + after;
      var inner := Frame(name, attributes, []);
      ReadsForest(children, after, stack, inner);
      var full := stack + [Grown(inner, children)];
      assert [] + children == children;
      assert after[0] == Close(name) && after[1..] == rest;
      assert full[..|full| - 2] == frames;
  }

  /** A document's tokens are well nested, and reading them gives the root element with exactly its items. */
  lemma DocumentReadsBack(k: Kind, attributes: seq<(string, Value)>, items: seq<Xml>)
    ensures Read([Declaration] + Tokens([Element(k.root, attributes, items)]), [Frame("", [], [])])
         == Some([Element(k.root, attributes, items)])
  {
    var xs, outside := [Element(k.root, attributes, items)], Frame("", [], []);
    var ts := [Declaration] + Tokens(xs);
    assert ts[0] == Declaration && ts[1..] == Tokens(xs) + [];
    ReadsForest(xs, [], [], outside);
    assert [] + [outside] == [outside] && [] + xs == xs;
  }

  // ---------------------------------------------------------------- the text buffer

  function Zeros(n: nat): (z: string)
    ensures |z| == n && forall i :: 0 <= i < n ==> z[i] == '\0'
  {
    if n == 0 then "" else Zeros(n - 1) + ['\0']
  }

  function Longest(m: nat, n: nat): nat { if m < n then n else m }

  /** io.StringIO.write */
  function Overwritten(data: string, pos: nat, s: string): string {
    if s == "" then data
    else
      var padded := if pos > |data| then data + Zeros(pos - |data|) else data;
      padded[..pos] + s + if pos + |s| < |padded| then padded[pos + |s|..] else ""
  }

  /** At its position the text stands; before and after it what was there; NULs in between when that was too short. */
  lemma OverwrittenAt(data: string, pos: nat, s: string)
    ensures var r := Overwritten(data, pos, s);
            && |r| == (if s == "" then |data| else Longest(|data|, pos + |s|))
            && (forall i :: 0 <= i < |r| ==>
                  r[i] == if pos <= i < pos + |s| then s[i - pos] else if i < |data| then data[i] else '\0')
            && (pos == |data| ==> r == data + s)
  {
    if s != "" {
      var padded := if pos > |data| then data + Zeros(pos - |data|) else data;
      assert |padded| == Longest(|data|, pos) && forall i :: 0 <= i < |padded| ==>
          padded[i] == if i < |data| then data[i] else '\0';
      var r := Overwritten(data, pos, s);
      assert forall i :: 0 <= i < pos ==> r[i] == padded[i];
      assert forall i :: pos + |s| <= i < |r| ==> r[i] == padded[i];
    }
    assert data[..|data|] == data && data + s + "" == data + s && data + "" == data;
  }

  /** Without the rewind, the next text is padded with as many NULs as were taken, unless nothing was. */
  lemma RewindIsNeededExactly(pos: nat, s: string)
    requires s != ""
    ensures Overwritten("", pos, s) == Zeros(pos) + s
    ensures Overwritten("", pos, s) == s <==> pos == 0
  {
    assert "" + Zeros(pos) == Zeros(pos) && Zeros(pos)[..pos] == Zeros(pos);
    assert pos == 0 ==> Zeros(pos) + s == s;
    assert pos > 0 ==> |Zeros(pos) + s| > |s|;
  }

  class TextStream {
    var data: string
    var pos: nat

    constructor ()
      ensures data == "" && pos == 0
    {
      data, pos := "", 0;
    }

    predicate AtEnd()
      reads this
    {
      pos == |data|
    }

    method Write(s: string)
      modifies this
      ensures pos == old(pos) + |s|
      ensures |data| == if s == "" then |old(data)| else Longest(|old(data)|, old(pos) + |s|)
      ensures forall i :: 0 <= i < |data| ==>
                data[i] == if old(pos) <= i < old(pos) + |s| then s[i - old(pos)]
                           else if i < |old(data)| then old(data)[i]
                           else '\0'
      ensures old(AtEnd()) ==> AtEnd() && data == old(data) + s
    {
      OverwrittenAt(data, pos, s);
      data, pos := Overwritten(data, pos, s), pos + |s|;
    }

    /** truncate keeps the position. */
    method Truncate(size: nat)
      modifies this`data
      ensures data == if size < |old(data)| then old(data)[..size] else old(data)
    {
      if size < |data| {
        data := data[..size];
      }
    }

    method Seek(to_: nat)
      modifies this`pos
      ensures pos == to_
    {
      pos := to_;
    }
  }

  method WriteToken(out: TextStream, t: Token)
    requires out.AtEnd()
    modifies out
    ensures out.AtEnd() && out.data == old(out.data) + Written(t)
  {
    var s := Written(t);
    assert out.data[..out.pos] == out.data && out.data + s + "" == out.data + s;
    out.Write(s);
  }

  // ---------------------------------------------------------------- _pop_xml_attributes and _to_xml

  method PopXmlAttributes(entries: seq<(string, Value)>)
      returns (rest: seq<(string, Value)>, attributes: seq<(string, Value)>)
    ensures rest == Plain(entries) && attributes == Attributes(entries)
  {
    rest, attributes := [], [];
    for i := 0 to |entries|
      invariant rest == Plain(entries[..i]) && attributes == Attributes(entries[..i])
    {
      assert entries[..i + 1][..i] == entries[..i];
      if IsAttribute(entries[i].0) {
        attributes := Put(attributes, Stripped(entries[i].0), entries[i].1);
      } else {
        rest := rest + [entries[i]];
      }
    }
    assert entries[..|entries|] == entries;
  }

  method ToXml(k: Kind, out: TextStream, v: Value) returns (ok: bool)
    requires out.AtEnd()
    modifies out
    ensures out.AtEnd() && ok == Accepted(k, v)
    ensures ok ==> out.data == old(out.data) + Content(Forest(k, v))
    decreases Size(v), 0
  {
    match v
    case Null => ok := true;
    case Text(s) =>
      ok := true;
      WriteToken(out, Data(s));
      CharsText(s);
    case List(items) => ok := ItemsToXml(k, out, items);
    case Dict(entries) => ok := FieldsToXml(k, out, entries);
  }

  lemma CharsText(s: string)
    ensures Content([Chars(s)]) == Escape(s)
  {
    assert [Chars(s)][1..] == [];
    assert Tokens([Chars(s)]) == [Data(s)];
    PrintOne(Data(s));
  }

  method ItemsToXml(k: Kind, out: TextStream, items: seq<Value>) returns (ok: bool)
    requires out.AtEnd()
    modifies out
    ensures out.AtEnd() && ok == ItemsAccepted(k, items)
    ensures ok ==> out.data == old(out.data) + Content(ItemForest(k, items))
    decreases ItemsSize(items), 0
  {
    ghost var start := out.data;
    ok := true;
    assert start + Content([]) == start;
    for i := 0 to |items|
      invariant out.AtEnd() && ItemsAccepted(k, items[..i])
      invariant out.data == start + Content(ItemForest(k, items[..i]))
    {
      ItemsStep(start, k, items, i);
      if k.Instances? {
        ok := PoppedToXml(k, out, k.element, items[i]);
      } else {
        ok := ElementToXml(k, out, k.element, items[i]);
      }
      if !ok {
        ItemsAcceptedPrefix(k, items, i + 1);
        return;
      }
    }
    assert items[..|items|] == items;
  }

  predicate ItemAccepted(k: Kind, v: Value) {
    if k.Instances? then PoppedAccepted(k, v) else Accepted(k, v)
  }

  function ItemElement(k: Kind, v: Value): Xml {
    if k.Instances? then Popped(k, k.element, v) else Element(k.element, [], Forest(k, v))
  }

  lemma ItemsStep(start: string, k: Kind, items: seq<Value>, i: nat)
    requires i < |items|
    ensures Size(items[i]) < ItemsSize(items)
    ensures ItemsAccepted(k, items[..i + 1]) == (ItemsAccepted(k, items[..i]) && ItemAccepted(k, items[i]))
    ensures start + Content(ItemForest(k, items[..i])) + Content([ItemElement(k, items[i])])
         == start + Content(ItemForest(k, items[..i + 1]))
  {
    ItemsSizePrefix(items, i);
    assert items[..i + 1][..i] == items[..i];
    ContentWritten(start, ItemForest(k, items[..i]), [ItemElement(k, items[i])]);
  }

  lemma ContentWritten(start: string, xs: seq<Xml>, ys: seq<Xml>)
    ensures start + Content(xs) + Content(ys) == start + Content(xs + ys)
  {
    ContentAppend(xs, ys);
    assert start + Content(xs) + Content(ys) == start + (Content(xs) + Content(ys));
  }

  method PoppedToXml(k: Kind, out: TextStream, name: string, v: Value) returns (ok: bool)
    requires out.AtEnd()
    modifies out
    ensures out.AtEnd() && ok == PoppedAccepted(k, v)
    ensures ok ==> out.data == old(out.data) + Content([Popped(k, name, v)])
    decreases Size(v), 1
  {
    if !v.Dict? {
      return false;
    }
    var rest, attributes := PopXmlAttributes(v.entries);
    if !TextValues(attributes) {
      return false;
    }
    ghost var start := out.data;
    WriteToken(out, Open(name, attributes));
    ok := FieldsToXml(k, out, rest);
    WriteToken(out, Close(name));
    ElementWritten(start, name, attributes, Fields(k, rest));
  }

  /** startElement(name, {}), the value, endElement(name). */
  method ElementToXml(k: Kind, out: TextStream, name: string, v: Value) returns (ok: bool)
    requires out.AtEnd()
    modifies out
    ensures out.AtEnd() && ok == Accepted(k, v)
    ensures ok ==> out.data == old(out.data) + Content([Element(name, [], Forest(k, v))])
    decreases Size(v), 1
  {
    ghost var start := out.data;
    WriteToken(out, Open(name, []));
    ok := ToXml(k, out, v);
    WriteToken(out, Close(name));
    ElementWritten(start, name, [], Forest(k, v));
  }

  lemma ElementWritten(start: string, name: string, attributes: seq<(string, Value)>, children: seq<Xml>)
    ensures start + Written(Open(name, attributes)) + Content(children) + Written(Close(name))
         == start + Content([Element(name, attributes, children)])
  {
    ElementText(name, attributes, children);
    Regrouped(start, Written(Open(name, attributes)), Content(children), Written(Close(name)));
  }

  lemma Regrouped(a: string, b: string, c: string, d: string)
    ensures a + b + c + d == a + (b + c + d)
  {}

  method FieldsToXml(k: Kind, out: TextStream, entries: seq<(string, Value)>) returns (ok: bool)
    requires out.AtEnd()
    modifies out
    ensures out.AtEnd() && ok == FieldsAccepted(k, entries)
    ensures ok ==> out.data == old(out.data) + Content(Fields(k, entries))
    decreases EntriesSize(entries), 0
  {
    ghost var start := out.data;
    ok := true;
    assert start + Content([]) == start;
    for i := 0 to |entries|
      invariant out.AtEnd() && FieldsAccepted(k, entries[..i])
      invariant out.data == start + Content(Fields(k, entries[..i]))
    {
      FieldsStep(start, k, entries, i);
      ok := FieldToXml(k, out, entries[i].0, entries[i].1);
      if !ok {
        FieldsAcceptedPrefix(k, entries, i + 1);
        return;
      }
    }
    assert entries[..|entries|] == entries;
  }

  lemma FieldsStep(start: string, k: Kind, entries: seq<(string, Value)>, i: nat)
    requires i < |entries|
    ensures Size(entries[i].1) < EntriesSize(entries)
    ensures FieldsAccepted(k, entries[..i + 1])
         == (FieldsAccepted(k, entries[..i]) && FieldAccepted(k, entries[i].0, entries[i].1))
    ensures start + Content(Fields(k, entries[..i])) + Content(Field(k, entries[i].0, entries[i].1))
         == start + Content(Fields(k, entries[..i + 1]))
  {
    EntriesSizePrefix(entries, i);
    assert entries[..i + 1][..i] == entries[..i];
    ContentWritten(start, Fields(k, entries[..i]), Field(k, entries[i].0, entries[i].1));
  }

  method FieldToXml(k: Kind, out: TextStream, key: string, v: Value) returns (ok: bool)
    requires out.AtEnd()
    modifies out
    ensures out.AtEnd() && ok == FieldAccepted(k, key, v)
    ensures ok ==> out.data == old(out.data) + Content(Field(k, key, v))
    decreases Size(v), 2
  {
    if k.Forms? && v.Null? && key !in MANDATORY {
      ok := true;
    } else if k.Instances? && key == "" {
      ok := ToXml(k, out, v);
    } else if k.Instances? && v.List? {
      ok := RepeatedToXml(k, out, key, v.items);
    } else if k.Instances? && v.Dict? {
      ok := PoppedToXml(k, out, key, v);
    } else {
      ok := ElementToXml(k, out, key, v);
    }
  }

  method RepeatedToXml(k: Kind, out: TextStream, key: string, items: seq<Value>) returns (ok: bool)
    requires out.AtEnd()
    modifies out
    ensures out.AtEnd() && ok == RepeatedAccepted(k, items)
    ensures ok ==> out.data == old(out.data) + Content(Repeated(k, key, items))
    decreases ItemsSize(items), 0
  {
    ghost var start := out.data;
    ok := true;
    assert start + Content([]) == start;
    for i := 0 to |items|
      invariant out.AtEnd() && RepeatedAccepted(k, items[..i])
      invariant out.data == start + Content(Repeated(k, key, items[..i]))
    {
      RepeatedStep(start, k, key, items, i);
      ok := ElementToXml(k, out, key, items[i]);
      if !ok {
        RepeatedAcceptedPrefix(k, items, i + 1);
        return;
      }
    }
    assert items[..|items|] == items;
  }

  lemma RepeatedStep(start: string, k: Kind, key: string, items: seq<Value>, i: nat)
    requires i < |items|
    ensures Size(items[i]) < ItemsSize(items)
    ensures RepeatedAccepted(k, items[..i + 1]) == (RepeatedAccepted(k, items[..i]) && Accepted(k, items[i]))
    ensures start + Content(Repeated(k, key, items[..i])) + Content([Element(key, [], Forest(k, items[i]))])
         == start + Content(Repeated(k, key, items[..i + 1]))
  {
    ItemsSizePrefix(items, i);
    assert items[..i + 1][..i] == items[..i];
    ContentWritten(start, Repeated(k, key, items[..i]), [Element(key, [], Forest(k, items[i]))]);
  }

  lemma {:induction false} ItemsSizePrefix(items: seq<Value>, i: nat)
    requires i < |items|
    ensures Size(items[i]) < ItemsSize(items)
    decreases |items|
  {
    var n := |items| - 1;
    if i < n {
      ItemsSizePrefix(items[..n], i);
    }
  }

  lemma {:induction false} EntriesSizePrefix(entries: seq<(string, Value)>, i: nat)
    requires i < |entries|
    ensures Size(entries[i].1) < EntriesSize(entries)
    decreases |entries|
  {
    var n := |entries| - 1;
    if i < n {
      EntriesSizePrefix(entries[..n], i);
    }
  }

  lemma {:induction false} ItemsAcceptedPrefix(k: Kind, items: seq<Value>, i: nat)
    requires i <= |items| && !ItemsAccepted(k, items[..i])
    ensures !ItemsAccepted(k, items)
    decreases |items|
  {
    var n := |items| - 1;
    if i <= n {
      assert items[..n][..i] == items[..i];
      ItemsAcceptedPrefix(k, items[..n], i);
    } else {
      assert items[..i] == items;
    }
  }

  lemma {:induction false} FieldsAcceptedPrefix(k: Kind, entries: seq<(string, Value)>, i: nat)
    requires i <= |entries| && !FieldsAccepted(k, entries[..i])
    ensures !FieldsAccepted(k, entries)
    decreases |entries|
  {
    var n := |entries| - 1;
    if i <= n {
      assert entries[..n][..i] == entries[..i];
      FieldsAcceptedPrefix(k, entries[..n], i);
    } else {
      assert entries[..i] == entries;
    }
  }

  lemma {:induction false} RepeatedAcceptedPrefix(k: Kind, items: seq<Value>, i: nat)
    requires i <= |items| && !RepeatedAccepted(k, items[..i])
    ensures !RepeatedAccepted(k, items)
    decreases |items|
  {
    var n := |items| - 1;
    if i <= n {
      assert items[..n][..i] == items[..i];
      RepeatedAcceptedPrefix(k, items[..n], i);
    } else {
      assert items[..i] == items;
    }
  }
}
