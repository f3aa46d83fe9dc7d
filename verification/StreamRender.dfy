/**
 Streaming against whole-document rendering (onadata/libs/renderers/renderers.py): the look-ahead loop hands out
 the text of one element at a time, and the chunks put together are the document.
 */
module StreamRender {
  import opened Common
  import opened StreamXml

  // ---------------------------------------------------------------- what the stream contains

  /** The loop ends at the first item that is not truthy. */
  function Leading(items: seq<Item>): (n: nat)
    ensures n <= |items|
    ensures forall i :: 0 <= i < n ==> items[i].truthy
    ensures n < |items| ==> !items[n].truthy
  {
    if items == [] || !items[0].truthy then 0 else 1 + Leading(items[1..])
  }

  predicate Emits(k: Kind, item: Item) {
    item.truthy && PoppedAccepted(k, item.value)
  }

  /** How many items are handed out: up to one that is not truthy or cannot be rendered. */
  function Emitted(k: Kind, items: seq<Item>): (n: nat)
    ensures n <= Leading(items)
    ensures forall i :: 0 <= i < n ==> Emits(k, items[i])
    ensures n < |items| ==> !Emits(k, items[n])
  {
    if items == [] || !Emits(k, items[0]) then 0 else 1 + Emitted(k, items[1..])
  }

  function Streamed(k: Kind, items: seq<Item>): seq<Xml> {
    if items == [] then []
    else Streamed(k, items[..|items| - 1]) + [Popped(k, k.element, items[|items| - 1].value)]
  }

  function ItemChunks(k: Kind, items: seq<Item>): (chunks: seq<string>)
    ensures |chunks| == |items|
  {
    if items == [] then []
    else ItemChunks(k, items[..|items| - 1]) + [ItemText(k, items[|items| - 1])]
  }

  /** One item's chunk. */
  function ItemText(k: Kind, item: Item): string {
    Content([Popped(k, k.element, item.value)])
  }

  lemma {:induction false} ChunksAreStreamed(k: Kind, items: seq<Item>)
    ensures Flatten(ItemChunks(k, items)) == Content(Streamed(k, items))
  {
    if items != [] {
      var before, x := items[..|items| - 1], Popped(k, k.element, items[|items| - 1].value);
      ChunksAreStreamed(k, before);
      FlattenAppend(ItemChunks(k, before), [Content([x])]);
      FlattenOne(Content([x]));
      ContentAppend(Streamed(k, before), [x]);
    }
  }

  // ---------------------------------------------------------------- the renderer

  class StreamRenderer {
    const kind: Kind
    var stream: TextStream?

    constructor (kind: Kind)
      ensures this.kind == kind && stream == null
    {
      this.kind, stream := kind, null;
    }

    method CurrentBufferData() returns (data: Option<string>)
      modifies stream
      ensures stream == null ==> data == None
      ensures stream != null ==> data == Some(old(stream.data)) && stream.data == "" && stream.AtEnd()
    {
      data := None;
      if stream != null {
        data := Some(stream.data);
        stream.Truncate(0);
        stream.Seek(0);
      }
    }

    /** One iteration's work on an item: serialize, pop the attributes, write, take the buffer. */
    method ItemChunk(item: Item) returns (ok: bool, chunk: string)
      requires stream != null && stream.data == "" && stream.AtEnd()
      modifies stream
      ensures ok == PoppedAccepted(kind, item.value)
      ensures ok ==> chunk == ItemText(kind, item)
      ensures ok ==> stream.data == "" && stream.AtEnd()
    {
      chunk := "";
      ok := PoppedToXml(kind, stream, kind.element, item.value);
      if ok {
        var data := CurrentBufferData();
        chunk := data.value;
        assert "" + ItemText(kind, item) == ItemText(kind, item);
      }
    }

    /** The loop: it looks one item ahead, and stops at the end or at an item that is not truthy. */
    method StreamItems(items: seq<Item>) returns (ok: bool, chunks: seq<string>)
      requires stream != null && stream.data == "" && stream.AtEnd()
      modifies stream
      ensures chunks == ItemChunks(kind, items[..Emitted(kind, items)])
      ensures ok == (Emitted(kind, items) == Leading(items))
      ensures ok ==> stream.data == "" && stream.AtEnd()
    {
      chunks, ok := [], true;
      var next := 0;
      var out := None;
      if |items| > 0 {
        out, next := Some(items[0]), 1;
      }
      ghost var done := 0;
      while out.Some? && out.value.truthy
        invariant done <= next <= |items| && done <= Leading(items)
        invariant if out.None? then next == done == |items| else next == done + 1 && out.value == items[done]
        invariant EmitsUpTo(kind, items, done)
        invariant chunks == ItemChunks(kind, items[..done])
        invariant stream.data == "" && stream.AtEnd()
        decreases |items| - done
      {
        LoopStep(kind, items, done);
        var following := None;
        if next < |items| {
          following, next := Some(items[next]), next + 1;
        }
        var chunk;
        ok, chunk := ItemChunk(out.value);
        if !ok {
          return;
        }
        chunks := chunks + [chunk];
        out, done := following, done + 1;
      }
    }

    /** Writes one more token and takes the buffer's text. */
    method Chunk(t: Token) returns (chunk: string)
      requires stream != null && stream.AtEnd()
      modifies stream
      ensures chunk == (if old(stream.data) == "" then Written(t) else old(stream.data) + Written(t))
      ensures stream.data == "" && stream.AtEnd()
    {
      assert "" + Written(t) == Written(t);
      WriteToken(stream, t);
      var data := CurrentBufferData();
      chunk := data.value;
    }

    /** InstanceXMLRenderer.stream_data; without data the first chunk is empty and reading the data fails. */
    method StreamInstances(data: Option<seq<Item>>, serverTime: string) returns (ok: bool, chunks: seq<string>)
      modifies this
      ensures data.None? ==> !ok && chunks == [""] + InstanceOpening(kind, serverTime)
      ensures data.Some? ==> ok == (Emitted(kind, data.value) == Leading(data.value))
      ensures data.Some? ==>
                chunks == InstanceOpening(kind, serverTime) + ItemChunks(kind, data.value[..Emitted(kind, data.value)])
                          + if ok then [Written(Close(kind.root))] else []
    {
      stream := new TextStream();
      WriteToken(stream, Declaration);
      assert stream.data == Written(Declaration);
      var head := Chunk(Open(kind.root, ServerTime(serverTime)));
      chunks := [head];
      if data.None? {
        ok, chunks := false, [""] + chunks;
      } else {
        var items;
        ok, items := StreamItems(data.value);
        chunks := chunks + items;
        if ok {
          var tail := Chunk(Close(kind.root));
          chunks := chunks + [tail];
        }
      }
    }

    /** StreamRendererMixin.stream_data, for form lists and manifests. */
    method StreamForms(data: Option<seq<Item>>, xmlns: string) returns (ok: bool, chunks: seq<string>)
      modifies this
      ensures data.None? ==> !ok && chunks == [""] + FormOpening(kind, xmlns)
      ensures data.Some? ==> ok == (Emitted(kind, data.value) == Leading(data.value))
      ensures data.Some? ==>
                chunks == FormOpening(kind, xmlns) + ItemChunks(kind, data.value[..Emitted(kind, data.value)])
                          + if ok then [Written(Close(kind.root)), ""] else []
    {
      stream := new TextStream();
      var declaration := Chunk(Declaration);
      var opening := Chunk(Open(kind.root, Namespace(xmlns)));
      chunks := [declaration, opening];
      if data.None? {
        ok, chunks := false, [""] + chunks;
      } else {
        var items;
        ok, items := StreamItems(data.value);
        chunks := chunks + items;
        if ok {
          var closing := Chunk(Close(kind.root));
          var end := CurrentBufferData();
          chunks := chunks + [closing, end.value];
        }
      }
    }
  }

  /** render: the whole document in one buffer. */
  method Render(k: Kind, attributes: seq<(string, Value)>, items: seq<Value>) returns (ok: bool, text: string)
    ensures ok == ItemsAccepted(k, items)
    ensures ok ==> text == Document(k, attributes, ItemForest(k, items))
  {
    var stream := new TextStream();
    WriteToken(stream, Declaration);
    WriteToken(stream, Open(k.root, attributes));
    assert stream.data == Written(Declaration) + Written(Open(k.root, attributes));
    ok := ItemsToXml(k, stream, items);
    WriteToken(stream, Close(k.root));
    text := stream.data;
    if ok {
      DocumentText(k, attributes, ItemForest(k, items));
      Regrouped(Written(Declaration), Written(Open(k.root, attributes)), Content(ItemForest(k, items)),
                Written(Close(k.root)));
    }
  }

  function ServerTime(time: string): seq<(string, Value)> {
    [("serverTime", Text(time))]
  }

  function Namespace(xmlns: string): seq<(string, Value)> {
    [("xmlns", Text(xmlns))]
  }

  function InstanceOpening(k: Kind, time: string): seq<string> {
    [Written(Declaration) + Written(Open(k.root, ServerTime(time)))]
  }

  function FormOpening(k: Kind, xmlns: string): seq<string> {
    [Written(Declaration), Written(Open(k.root, Namespace(xmlns)))]
  }

  ghost predicate EmitsUpTo(k: Kind, items: seq<Item>, n: nat)
    requires n <= |items|
  {
    forall i :: 0 <= i < n ==> Emits(k, items[i])
  }

  lemma LoopStep(k: Kind, items: seq<Item>, i: nat)
    requires i < |items| && items[i].truthy && i <= Leading(items) && EmitsUpTo(k, items, i)
    ensures i < Leading(items)
    ensures PoppedAccepted(k, items[i].value) ==> EmitsUpTo(k, items, i + 1)
    ensures ItemChunks(k, items[..i + 1]) == ItemChunks(k, items[..i]) + [ItemText(k, items[i])]
  {
    assert items[..i + 1][..i] == items[..i];
  }

  // ---------------------------------------------------------------- the chunks are the document

  /** The chunks of a finished stream of submissions, put together, are the document of the streamed items. */
  lemma InstanceChunksMakeDocument(k: Kind, time: string, items: seq<Item>)
    ensures Flatten(InstanceOpening(k, time) + ItemChunks(k, items) + [Written(Close(k.root))])
         == Document(k, ServerTime(time), Streamed(k, items))
  {
    FlattenOne(Written(Declaration) + Written(Open(k.root, ServerTime(time))));
    FlattenOne(Written(Close(k.root)));
    ChunksMakeDocument(k, ServerTime(time), InstanceOpening(k, time), items, [Written(Close(k.root))]);
  }

  /** The same for a form list or a manifest. */
  lemma FormChunksMakeDocument(k: Kind, xmlns: string, items: seq<Item>)
    ensures Flatten(FormOpening(k, xmlns) + ItemChunks(k, items) + [Written(Close(k.root)), ""])
         == Document(k, Namespace(xmlns), Streamed(k, items))
  {
    var closing := Written(Close(k.root));
    FlattenPair(Written(Declaration), Written(Open(k.root, Namespace(xmlns))));
    FlattenPair(closing, "");
    assert closing + "" == closing;
    ChunksMakeDocument(k, Namespace(xmlns), FormOpening(k, xmlns), items, [closing, ""]);
  }

  lemma ChunksMakeDocument(k: Kind, attributes: seq<(string, Value)>, head: seq<string>, items: seq<Item>,
      tail: seq<string>)
    requires Flatten(head) == Written(Declaration) + Written(Open(k.root, attributes))
    requires Flatten(tail) == Written(Close(k.root))
    ensures Flatten(head + ItemChunks(k, items) + tail) == Document(k, attributes, Streamed(k, items))
  {
    FlattenAppend(head + ItemChunks(k, items), tail);
    FlattenAppend(head, ItemChunks(k, items));
    ChunksAreStreamed(k, items);
    DocumentText(k, attributes, Streamed(k, items));
    Regrouped(Written(Declaration), Written(Open(k.root, attributes)), Content(Streamed(k, items)),
        Written(Close(k.root)));
  }

  lemma FlattenPair(s: string, t: string)
    ensures Flatten([s, t]) == s + t
  {
    assert [s, t][1..] == [t];
    FlattenOne(t);
  }

  // ---------------------------------------------------------------- streaming and rendering agree

  function Values(items: seq<Item>): (vs: seq<Value>)
    ensures |vs| == |items|
    ensures forall i :: 0 <= i < |vs| ==> vs[i] == items[i].value
  {
    if items == [] then [] else Values(items[..|items| - 1]) + [items[|items| - 1].value]
  }

  lemma {:induction false} StreamedIsForest(k: Kind, items: seq<Item>)
    requires k.Instances?
    ensures Streamed(k, items) == ItemForest(k, Values(items))
  {
    if items != [] {
      var n := |items| - 1;
      StreamedIsForest(k, items[..n]);
      assert Values(items)[..n] == Values(items[..n]);
    }
  }

  /** Submissions: the stream is the rendered document exactly when every item is truthy. */
  lemma StreamedIsRenderedExactly(k: Kind, attributes: seq<(string, Value)>, items: seq<Item>)
    requires k.Instances?
    ensures (Document(k, attributes, Streamed(k, items[..Leading(items)]))
             == Document(k, attributes, ItemForest(k, Values(items))))
       <==> forall i :: 0 <= i < |items| ==> items[i].truthy
  {
    var n := Leading(items);
    StreamedIsForest(k, items);
    if n == |items| {
      assert items[..n] == items;
    } else {
      DocumentText(k, attributes, Streamed(k, items[..n]));
      DocumentText(k, attributes, Streamed(k, items));
      StreamedLonger(k, items, n);
    }
  }

  /** Every further item adds text. */
  lemma {:induction false} StreamedLonger(k: Kind, items: seq<Item>, n: nat)
    requires n <= |items|
    ensures |Content(Streamed(k, items[..n]))| + (|items| - n) <= |Content(Streamed(k, items))|
    decreases |items|
  {
    if n == |items| {
      assert items[..n] == items;
    } else {
      var before, x := items[..|items| - 1], Popped(k, k.element, items[|items| - 1].value);
      StreamedLonger(k, before, n);
      assert before[..n] == items[..n];
      ContentAppend(Streamed(k, before), [x]);
      ElementText(x.name, x.attributes, x.children);
    }
  }

  lemma {:induction false} AcceptedValues(k: Kind, items: seq<Item>)
    requires k.Instances?
    ensures ItemsAccepted(k, Values(items)) <==> forall i :: 0 <= i < |items| ==> PoppedAccepted(k, items[i].value)
  {
    if items != [] {
      var n := |items| - 1;
      AcceptedValues(k, items[..n]);
      assert Values(items)[..n] == Values(items[..n]);
      assert items == items[..n] + [items[n]];
    }
  }

  /**
   Both ways of writing the same submissions with the same server time. If the render succeeds, so does the stream, and
   its chunks put together are the rendered text if and only if every item is truthy.
   */
  method StreamAndRender(renderer: StreamRenderer, items: seq<Item>, serverTime: string)
    returns (streamed: bool, chunks: seq<string>, rendered: bool, text: string)
    requires renderer.kind.Instances?
    modifies renderer
    ensures rendered ==> streamed
    ensures rendered ==> (Flatten(chunks) == text <==> forall i :: 0 <= i < |items| ==> items[i].truthy)
  {
    streamed, chunks := renderer.StreamInstances(Some(items), serverTime);
    rendered, text := Render(renderer.kind, ServerTime(serverTime), Values(items));
    if rendered {
      AcceptedValues(renderer.kind, items);
      assert streamed;
      InstanceChunksMakeDocument(renderer.kind, serverTime, items[..Leading(items)]);
      StreamedIsRenderedExactly(renderer.kind, ServerTime(serverTime), items);
    }
  }

  // ---------------------------------------------------------------- attributes

  predicate NoAttributes(entries: seq<(string, Value)>) {
    forall i :: 0 <= i < |entries| ==> !IsAttribute(entries[i].0)
  }

  /** Form lists: streaming turns "@" entries into attributes, rendering at once turns them into elements. */
  lemma FormItemRenderedExactly(k: Kind, v: Value)
    requires k.Forms? && v.Dict?
    ensures Popped(k, k.element, v) == Element(k.element, [], Forest(k, v)) <==> NoAttributes(v.entries)
  {
    if NoAttributes(v.entries) {
      NothingPopped(v.entries);
    } else {
      SomethingPopped(v.entries);
    }
  }

  /** The items whose stream and render agree: truthy, and without "@" keys. */
  predicate Plainly(item: Item) {
    item.truthy && item.value.Dict? && NoAttributes(item.value.entries)
  }

  /** The elements of a form list that is rendered at once. */
  function Rendered(k: Kind, items: seq<Item>): seq<Xml> {
    if items == [] then []
    else Rendered(k, items[..|items| - 1]) + [Element(k.element, [], Forest(k, items[|items| - 1].value))]
  }

  lemma {:induction false} RenderedIsForest(k: Kind, items: seq<Item>)
    requires k.Forms?
    ensures Rendered(k, items) == ItemForest(k, Values(items))
  {
    if items != [] {
      var n := |items| - 1;
      RenderedIsForest(k, items[..n]);
      assert Values(items)[..n] == Values(items[..n]);
    }
  }

  lemma {:induction false} PlainlyStreamed(k: Kind, items: seq<Item>)
    requires k.Forms? && forall i :: 0 <= i < |items| ==> Plainly(items[i])
    ensures Streamed(k, items) == Rendered(k, items)
  {
    if items != [] {
      var n := |items| - 1;
      PlainlyStreamed(k, items[..n]);
      assert Plainly(items[n]);
      FormItemRenderedExactly(k, items[n].value);
    }
  }

  lemma {:induction false} StreamedAppend(k: Kind, items: seq<Item>, n: nat) returns (rest: seq<Xml>)
    requires n <= |items|
    ensures Streamed(k, items) == Streamed(k, items[..n]) + rest
    ensures n < |items| ==> rest != [] && rest[0] == Popped(k, k.element, items[n].value)
    decreases |items|
  {
    if n == |items| {
      rest := [];
      assert items[..n] == items;
    } else {
      var m := |items| - 1;
      var before := StreamedAppend(k, items[..m], n);
      assert items[..m][..n] == items[..n];
      rest := before + [Popped(k, k.element, items[m].value)];
      assert n == m ==> before == [] by {
        if n == m { assert |Streamed(k, items[..m])| + |before| == |Streamed(k, items[..m])|; }
      }
    }
  }

  lemma {:induction false} RenderedAppend(k: Kind, items: seq<Item>, n: nat) returns (rest: seq<Xml>)
    requires n <= |items|
    ensures Rendered(k, items) == Rendered(k, items[..n]) + rest
    ensures n < |items| ==> rest != [] && rest[0] == Element(k.element, [], Forest(k, items[n].value))
    decreases |items|
  {
    if n == |items| {
      rest := [];
      assert items[..n] == items;
    } else {
      var m := |items| - 1;
      var before := RenderedAppend(k, items[..m], n);
      assert items[..m][..n] == items[..n];
      rest := before + [Element(k.element, [], Forest(k, items[m].value))];
      assert n == m ==> before == [] by {
        if n == m { assert |Rendered(k, items[..m])| + |before| == |Rendered(k, items[..m])|; }
      }
    }
  }

  /** How an element's text begins. */
  lemma ElementBegins(name: string, attributes: seq<(string, Value)>, children: seq<Xml>, more: seq<Xml>)
    ensures Content([Element(name, attributes, children)] + more) != ""
    ensures var start := "<" + name + if attributes == [] then ">" else " ";
            start <= Content([Element(name, attributes, children)] + more)
  {
    ContentAppend([Element(name, attributes, children)], more);
    ElementText(name, attributes, children);
    var opening := Written(Open(name, attributes));
    var start := "<" + name + if attributes == [] then ">" else " ";
    if attributes == [] {
      assert "<" + name + "" == "<" + name;
      assert opening == start;
    } else {
      assert opening[..|start|] == start;
    }
    assert start <= opening;
  }

  /** Texts with a common beginning that part after it. */
  lemma DifferAfter(before: string, s: string, t: string, end: string, i: nat)
    requires i < |s + end| && i < |t| && (s + end)[i] != t[i]
    ensures (before + s) + end != (before + t) + end
  {
    var x, y := (before + s) + end, (before + t) + end;
    assert x == before + (s + end) && y == before + (t + end);
    assert x[|before| + i] == (s + end)[i] && y[|before| + i] == t[i];
  }

  lemma RenderedFrom(k: Kind, items: seq<Item>, m: nat) returns (r: string)
    requires m < |items|
    ensures Content(Rendered(k, items)) == Content(Rendered(k, items[..m])) + r
    ensures "<" + k.element + ">" <= r
  {
    var rest := RenderedAppend(k, items, m);
    ContentAppend(Rendered(k, items[..m]), rest);
    ElementBegins(k.element, [], Forest(k, items[m].value), rest[1..]);
    assert [rest[0]] + rest[1..] == rest;
    r := Content(rest);
  }

  lemma StreamedFrom(k: Kind, items: seq<Item>, m: nat) returns (r: string)
    requires m < |items| && items[m].value.Dict? && !NoAttributes(items[m].value.entries)
    ensures Content(Streamed(k, items)) == Content(Streamed(k, items[..m])) + r
    ensures "<" + k.element + " " <= r
  {
    var entries := items[m].value.entries;
    var rest := StreamedAppend(k, items, m);
    SomethingPopped(entries);
    ContentAppend(Streamed(k, items[..m]), rest);
    ElementBegins(k.element, Attributes(entries), Fields(k, Plain(entries)), rest[1..]);
    assert [rest[0]] + rest[1..] == rest;
    r := Content(rest);
  }

  /** The first item that is not plain: where the stream and the render part. */
  lemma FormsPart(k: Kind, items: seq<Item>, m: nat)
    requires k.Forms? && k.element != "" && k.element[0] != '/' && m < |items| && !Plainly(items[m])
        && items[m].value.Dict?
    requires forall i :: 0 <= i < m ==> Plainly(items[i])
    ensures Content(Streamed(k, items[..Leading(items)])) + Written(Close(k.root))
         != Content(Rendered(k, items)) + Written(Close(k.root))
  {
    assert forall i :: 0 <= i < m ==> items[i].truthy;
    PlainlyStreamed(k, items[..m]);
    var before, r := Content(Streamed(k, items[..m])), "";
    r := RenderedFrom(k, items, m);
    if Leading(items) == m {
      EndsBefore(before, k.element, r, k.root);
    } else {
      var s := StreamedFrom(k, items[..Leading(items)], m);
      assert items[..Leading(items)][..m] == items[..m];
      OpensBefore(before, k.element, s, r, Written(Close(k.root)));
    }
  }

  lemma EndsBefore(before: string, element: string, r: string, root: string)
    requires element != "" && element[0] != '/' && "<" + element + ">" <= r
    ensures before + Written(Close(root)) != (before + r) + Written(Close(root))
  {
    var closing := Written(Close(root));
    assert ("" + closing)[1] == '/' && r[1] == ("<" + element + ">")[1] == element[0];
    DifferAfter(before, "", r, closing, 1);
    assert before + "" == before;
  }

  lemma OpensBefore(before: string, element: string, s: string, r: string, closing: string)
    requires "<" + element + " " <= s && "<" + element + ">" <= r
    ensures (before + s) + closing != (before + r) + closing
  {
    var at := 1 + |element|;
    assert s[at] == ("<" + element + " ")[at] == ' ' && r[at] == ("<" + element + ">")[at] == '>';
    DifferAfter(before, s, r, closing, at);
  }

  lemma {:induction false} PlainlyLeading(items: seq<Item>)
    ensures (forall i :: 0 <= i < |items| ==> Plainly(items[i])) ==> Leading(items) == |items|
  {
    if items != [] {
      PlainlyLeading(items[1..]);
      assert forall i :: 0 <= i < |items[1..]| ==> items[1..][i] == items[i + 1];
    }
  }

  /** Form lists: the streamed text is the rendered text if and only if every item is truthy and has no "@" key. */
  lemma FormsRenderedExactly(k: Kind, attributes: seq<(string, Value)>, items: seq<Item>)
    requires k.Forms? && k.element != "" && k.element[0] != '/' && forall i :: 0 <= i < |items| ==> items[i].value.Dict?
    ensures (Document(k, attributes, Streamed(k, items[..Leading(items)]))
             == Document(k, attributes, ItemForest(k, Values(items))))
       <==> forall i :: 0 <= i < |items| ==> items[i].truthy && NoAttributes(items[i].value.entries)
  {
    var n := Leading(items);
    RenderedIsForest(k, items);
    if forall i :: 0 <= i < |items| ==> Plainly(items[i]) {
      PlainlyLeading(items);
      assert items[..n] == items;
      PlainlyStreamed(k, items);
    } else {
      var m := FirstNotPlain(items);
      FormsPart(k, items, m);
      DocumentText(k, attributes, Streamed(k, items[..n]));
      DocumentText(k, attributes, ItemForest(k, Values(items)));
      SameAfter(Written(Declaration), Written(Open(k.root, attributes)), Content(Streamed(k, items[..n])),
                Content(ItemForest(k, Values(items))), Written(Close(k.root)));
    }
  }

  lemma FirstNotPlain(items: seq<Item>) returns (m: nat)
    requires exists i :: 0 <= i < |items| && !Plainly(items[i])
    ensures m < |items| && !Plainly(items[m]) && forall i :: 0 <= i < m ==> Plainly(items[i])
  {
    m := 0;
    while Plainly(items[m])
      invariant m < |items| && forall i :: 0 <= i < m ==> Plainly(items[i])
      decreases |items| - m
    {
      m := m + 1;
    }
  }

  lemma PrefixCancels(a: string, x: string, y: string)
    ensures a + x == a + y <==> x == y
  {
    assert (a + x)[|a|..] == x;
    assert (a + y)[|a|..] == y;
  }

  lemma SameAfter(a: string, b: string, s: string, t: string, c: string)
    ensures a + (b + s + c) == a + (b + t + c) <==> s + c == t + c
  {
    PrefixCancels(a, b + s + c, b + t + c);
    PrefixCancels(b, s + c, t + c);
    assert b + s + c == b + (s + c) && b + t + c == b + (t + c);
  }

  lemma {:induction false} NothingPopped(entries: seq<(string, Value)>)
    requires NoAttributes(entries)
    ensures Plain(entries) == entries && Attributes(entries) == []
    decreases |entries|
  {
    if entries != [] {
      var n := |entries| - 1;
      NothingPopped(entries[..n]);
      assert entries == entries[..n] + [entries[n]];
    }
  }

  lemma {:induction false} SomethingPopped(entries: seq<(string, Value)>)
    requires !NoAttributes(entries)
    ensures Attributes(entries) != []
    decreases |entries|
  {
    var n := |entries| - 1;
    if !IsAttribute(entries[n].0) {
      SomethingPopped(entries[..n]);
    }
  }

  /** Popping parts the entries: each goes to exactly one side, in order; an attribute keeps its last value. */
  lemma {:induction false} PopLosesNothing(entries: seq<(string, Value)>, key: string)
    ensures !IsAttribute(key) ==> Grouping.Select(Plain(entries), key) == Grouping.Select(entries, key)
    ensures Grouping.Get(Attributes(entries), key) == LastAttribute(entries, key)
    decreases |entries|
  {
    if entries != [] {
      var n, last := |entries| - 1, entries[|entries| - 1];
      PopLosesNothing(entries[..n], key);
      assert entries == entries[..n] + [last];
      Grouping.SelectSnoc(entries[..n], last, key);
      if IsAttribute(last.0) {
        Grouping.GetPut(Attributes(entries[..n]), Stripped(last.0), last.1, key);
        assert Grouping.Select(entries[..n], key) + [] == Grouping.Select(entries[..n], key);
      } else {
        Grouping.SelectSnoc(Plain(entries[..n]), last, key);
      }
    }
  }

  function LastAttribute(entries: seq<(string, Value)>, name: string): Option<Value> {
    if entries == [] then None
    else
      var last := entries[|entries| - 1];
      if IsAttribute(last.0) && Stripped(last.0) == name then Some(last.1)
      else LastAttribute(entries[..|entries| - 1], name)
  }
}
