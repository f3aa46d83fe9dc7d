/** The chunks the manifest renderer streams have the shape the cache relies on. */
module ManifestStreams {
  import opened Common
  import opened Text
  import opened StreamXml
  import opened StreamRender
  import ManifestCache

  const MANIFEST := Forms("manifest", "mediaFile")

  /** One tag, or an element: it starts with '<' and ends with '>'. */
  predicate IsTag(s: string) {
    |s| >= 2 && s[0] == '<' && s[|s| - 1] == '>'
  }

  lemma TagIsStripped(s: string)
    requires IsTag(s)
    ensures Strip(s) == s
  {}

  /** The character before the last one. */
  function Second(s: string): char
    requires |s| >= 2
  {
    s[|s| - 2]
  }

  lemma EndsOtherwise(s: string)
    requires |s| >= 2 && Second(s) != 't'
    ensures !EndsWith(s, ManifestCache.END)
  {}

  lemma ItemChunk(x: Xml)
    requires x.Element? && x.name == "mediaFile"
    ensures IsTag(Content([x])) && Second(Content([x])) == 'e'
  {
    ElementText(x.name, x.attributes, x.children);
    var open, close := Written(Open(x.name, x.attributes)), Written(Close(x.name));
    assert open[0] == '<';
    assert close[|close| - 1] == '>' && Second(close) == 'e' by {
      CloseShape(x.name);
    }
    var all := open + Content(x.children) + close;
    assert all[0] == open[0];
    assert all[|all| - 1] == close[|close| - 1] && Second(all) == Second(close);
  }

  lemma CloseShape(name: string)
    requires name != ""
    ensures IsTag(Written(Close(name))) && Second(Written(Close(name))) == name[|name| - 1]
  {}

  lemma OpeningShape(xmlns: string)
    ensures var opening := Written(Open(MANIFEST.root, Namespace(xmlns))); IsTag(opening) && Second(opening) == '"'
  {
    var value := Quote(Escape(xmlns));
    assert Namespace(xmlns)[1..] == [];
    var assignment := " " + "xmlns" + "=\"" + value + "\"";
    assert Assignments(Namespace(xmlns)) == assignment + "";
    assert assignment[|assignment| - 1] == '"';
  }

  lemma LineIsStripped(s: string)
    requires IsTag(s)
    ensures Strip(s + "\n") == s
  {
    var line := s + "\n";
    assert !IsSpace('<') && !IsSpace('>') && IsSpace('\n');
    assert line[0] == '<' && line[|line| - 1] == '\n' && line[..|line| - 1] == s;
    assert StripStart(line) == line;
    assert StripEnd(line) == StripEnd(s);
    TagIsStripped(s);
  }

  lemma DeclarationStripped()
    ensures Strip(Written(Declaration)) == PROLOG
  {
    assert PROLOG[0] == '<' && PROLOG[|PROLOG| - 1] == '>';
    LineIsStripped(PROLOG);
  }

  lemma DeclarationShape()
    ensures var data := Strip(Written(Declaration)); IsTag(data) && Second(data) == '?'
  {
    DeclarationStripped();
    assert PROLOG[0] == '<' && PROLOG[|PROLOG| - 1] == '>' && Second(PROLOG) == '?';
  }

  lemma {:induction false} ItemChunksAt(items: seq<Item>, i: nat)
    requires i < |items|
    ensures ItemChunks(MANIFEST, items)[i] == ItemText(MANIFEST, items[i])
    decreases |items|
  {
    var n := |items| - 1;
    var before := items[..n];
    assert ItemChunks(MANIFEST, items) == ItemChunks(MANIFEST, before) + [ItemText(MANIFEST, items[n])];
    if i < n {
      assert before[i] == items[i];
      ItemChunksAt(before, i);
    }
  }

  /** What the cache is filled with for any list of media files. */
  function Chunks(xmlns: string, items: seq<Item>): seq<string> {
    FormOpening(MANIFEST, xmlns) + ItemChunks(MANIFEST, items) + [Written(Close(MANIFEST.root)), ""]
  }

  predicate Chunk(s: string, closing: bool) {
    var data := Strip(s);
    data != "" && data[0] == '<' && (EndsWith(data, ManifestCache.END) <==> closing)
  }

  lemma OpeningChunks(xmlns: string)
    ensures Chunk(Written(Declaration), false) && Chunk(Written(Open(MANIFEST.root, Namespace(xmlns))), false)
  {
    DeclarationShape();
    EndsOtherwise(Strip(Written(Declaration)));
    OpeningShape(xmlns);
    TagIsStripped(Written(Open(MANIFEST.root, Namespace(xmlns))));
    EndsOtherwise(Written(Open(MANIFEST.root, Namespace(xmlns))));
  }

  lemma ClosingChunk()
    ensures Chunk(Written(Close(MANIFEST.root)), true)
  {
    var s := Written(Close(MANIFEST.root));
    CloseShape(MANIFEST.root);
    TagIsStripped(s);
    assert s == ManifestCache.END;
    assert s[0..] == s;
  }

  lemma MediaFileChunk(items: seq<Item>, i: nat)
    requires i < |items|
    ensures Chunk(ItemChunks(MANIFEST, items)[i], false)
  {
    ItemChunksAt(items, i);
    var x := Popped(MANIFEST, "mediaFile", items[i].value);
    ItemChunk(x);
    TagIsStripped(Content([x]));
    EndsOtherwise(Content([x]));
  }

  /** Every stream of a manifest has the shape the cache relies on: only its closing chunk ends with the closing tag. */
  lemma StreamsAreStreamable(xmlns: string, items: seq<Item>)
    ensures ManifestCache.Streamable(Chunks(xmlns, items))
  {
    var chunks, n := Chunks(xmlns, items), |items|;
    OpeningChunks(xmlns);
    ClosingChunk();
    forall i | 0 <= i < |chunks| - 1
      ensures ManifestCache.Tagged(chunks, i)
    {
      if 2 <= i < n + 2 {
        MediaFileChunk(items, i - 2);
        assert chunks[i] == ItemChunks(MANIFEST, items)[i - 2];
      }
      assert Chunk(chunks[i], i == n + 2);
    }
  }

  // ---------------------------------------------------------------- what the cache ends up with

  lemma {:induction false} JoinedAppend(xs: seq<string>, ys: seq<string>)
    ensures ManifestCache.Joined(xs + ys) == ManifestCache.Joined(xs) + ManifestCache.Joined(ys)
    decreases |ys|
  {
    var all, before := xs + ys, ManifestCache.Joined(xs);
    if ys == [] {
      assert all == xs && before + "" == before;
    } else {
      var n := |ys| - 1;
      assert all[|xs| + n] == ys[n] && all[..|xs| + n] == xs + ys[..n];
      JoinedAppend(xs, ys[..n]);
      assert ManifestCache.Joined(ys) == ManifestCache.Joined(ys[..n]) + Strip(ys[n]);
      assert ManifestCache.Joined(all) == ManifestCache.Joined(all[..|xs| + n]) + Strip(ys[n]);
      Associates(before, ManifestCache.Joined(ys[..n]), Strip(ys[n]));
    }
  }

  lemma JoinedPair(a: string, b: string)
    ensures ManifestCache.Joined([a, b]) == Strip(a) + Strip(b)
  {
    assert [a, b][..1] == [a] && [a][..0] == [];
    assert "" + Strip(a) == Strip(a);
    assert ManifestCache.Joined([a]) == Strip(a);
  }

  lemma {:induction false} JoinedItems(items: seq<Item>)
    ensures ManifestCache.Joined(ItemChunks(MANIFEST, items)) == Content(Streamed(MANIFEST, items))
  {
    if items != [] {
      var n := |items| - 1;
      var chunks, x := ItemChunks(MANIFEST, items[..n]), Popped(MANIFEST, MANIFEST.element, items[n].value);
      JoinedItems(items[..n]);
      ItemChunk(x);
      TagIsStripped(Content([x]));
      assert (chunks + [Content([x])])[..n] == chunks;
      ContentAppend(Streamed(MANIFEST, items[..n]), [x]);
    }
  }

  /** The whole manifest in the cache is the rendered document, without the line break after its declaration. */
  lemma CachedIsDocument(xmlns: string, items: seq<Item>)
    ensures var body := Written(Open(MANIFEST.root, Namespace(xmlns))) + Content(Streamed(MANIFEST, items))
                        + Written(Close(MANIFEST.root));
            && ManifestCache.Joined(Chunks(xmlns, items)) == PROLOG + body
            && Document(MANIFEST, Namespace(xmlns), Streamed(MANIFEST, items)) == (PROLOG + "\n") + body
  {
    var open, close := Written(Open(MANIFEST.root, Namespace(xmlns))), Written(Close(MANIFEST.root));
    var content := Content(Streamed(MANIFEST, items));
    JoinedAppend(FormOpening(MANIFEST, xmlns) + ItemChunks(MANIFEST, items), [close, ""]);
    JoinedAppend(FormOpening(MANIFEST, xmlns), ItemChunks(MANIFEST, items));
    JoinedItems(items);
    JoinedPair(Written(Declaration), open);
    JoinedPair(close, "");
    DeclarationStripped();
    OpeningShape(xmlns);
    TagIsStripped(open);
    CloseShape(MANIFEST.root);
    TagIsStripped(close);
    assert Strip("") == "" && close + "" == close;
    Regrouped(PROLOG, open, content, close);
    DocumentText(MANIFEST, Namespace(xmlns), Streamed(MANIFEST, items));
  }
}
