/** Reading the text that the renderers write: the tokens come back, names, attributes and texts unescaped. */
module StreamText {
  import opened Common
  import opened StreamRender
  import opened StreamXml

  // ---------------------------------------------------------------- a reader of XML text

  /** How far a text goes on without some characters. */
  function Upto(s: string, stop: set<char>): (n: nat)
    ensures n <= |s|
    ensures forall i :: 0 <= i < n ==> s[i] !in stop
    ensures n < |s| ==> s[n] in stop
  {
    if s == "" || s[0] in stop then 0 else 1 + Upto(s[1..], stop)
  }

  predicate Begins(s: string, w: string) {
    |w| <= |s| && forall i | 0 <= i < |w| :: s[i] == w[i]
  }

  /** The character that a text starts with, and how many characters write it. */
  function FirstChar(s: string): (c: (char, nat))
    requires s != ""
    ensures 0 < c.1 <= |s|
  {
    if s[0] != '&' then (s[0], 1)
    else if Begins(s, "&amp;") then ('&', 5)
    else if Begins(s, "&lt;") then ('<', 4)
    else if Begins(s, "&gt;") then ('>', 4)
    else if Begins(s, "&quot;") then ('"', 6)
    else if Begins(s, "&#10;") then ('\n', 5)
    else if Begins(s, "&#13;") then ('\r', 5)
    else if Begins(s, "&#9;") then ('\t', 4)
    else ('&', 1)
  }

  function Unescape(s: string): string {
    if s == "" then "" else var (c, n) := FirstChar(s); [c] + Unescape(s[n..])
  }

  /** name="value" pairs, each after a space, and what follows them. */
  function ReadAttributes(s: string): (r: (seq<(string, Value)>, string))
    ensures |r.1| <= |s|
    decreases |s|
  {
    if s == "" || s[0] != ' ' then ([], s)
    else
      var n := Upto(s[1..], {'='});
      var t := s[1 + n..];
      if |t| < 2 then ([], s)
      else
        var m := Upto(t[2..], {'"'});
        var u := t[2 + m..];
        if u == "" then ([], s)
        else
          var (more, rest) := ReadAttributes(u[1..]);
          ([(s[1..1 + n], Text(Unescape(t[2..2 + m])))] + more, rest)
  }

  function ReadText(s: string): seq<Token>
    decreases |s|
  {
    if s == "" then []
    else if s[0] != '<' then
      var n := Upto(s, {'<'});
      [Data(Unescape(s[..n]))] + ReadText(s[n..])
    else if |s| > 1 && s[1] == '/' then
      var n := Upto(s[2..], {'>'});
      if 2 + n == |s| then [] else [Close(s[2..2 + n])] + ReadText(s[3 + n..])
    else
      var n := Upto(s[1..], {' ', '>'});
      var (attributes, rest) := ReadAttributes(s[1 + n..]);
      if rest == "" then [] else [Open(s[1..1 + n], attributes)] + ReadText(rest[1..])
  }

  // ---------------------------------------------------------------- escaping

  lemma {:induction false} UnescapeAppend(c: char, w: string, s: string)
    requires w != "" && FirstChar(w + s) == (c, |w|)
    ensures Unescape(w + s) == [c] + Unescape(s)
  {
    assert (w + s)[|w|..] == s;
  }

  lemma BeginsAppended(w: string, rest: string, other: string, i: nat)
    ensures Begins(w + rest, w)
    ensures i < |w| && i < |other| && w[i] != other[i] ==> !Begins(w + rest, other)
  {
    if i < |w| && i < |other| && w[i] != other[i] {
      assert (w + rest)[i] == w[i];
    }
  }

  lemma EntityReads(rest: string)
    ensures FirstChar("&amp;" + rest) == ('&', 5) && FirstChar("&lt;" + rest) == ('<', 4)
    ensures FirstChar("&gt;" + rest) == ('>', 4) && FirstChar("&quot;" + rest) == ('"', 6)
  {
    BeginsAppended("&amp;", rest, "", 0);
    BeginsAppended("&lt;", rest, "&amp;", 1);
    BeginsAppended("&gt;", rest, "&amp;", 1);
    BeginsAppended("&gt;", rest, "&lt;", 1);
    BeginsAppended("&quot;", rest, "&amp;", 1);
    BeginsAppended("&quot;", rest, "&lt;", 1);
    BeginsAppended("&quot;", rest, "&gt;", 1);
  }

  lemma NumberReads(w: string, rest: string)
    requires w in {"&#10;", "&#13;", "&#9;"}
    ensures FirstChar(w + rest) == (if w == "&#10;" then ('\n', 5) else if w == "&#13;" then ('\r', 5) else ('\t', 4))
  {
    assert w[0] == '&' && w[1] == '#';
    BeginsAppended(w, rest, "&amp;", 1);
    BeginsAppended(w, rest, "&lt;", 1);
    BeginsAppended(w, rest, "&gt;", 1);
    BeginsAppended(w, rest, "&quot;", 1);
    BeginsAppended(w, rest, "&#10;", 2);
    BeginsAppended(w, rest, "&#10;", 3);
    BeginsAppended(w, rest, "&#13;", 2);
    BeginsAppended(w, rest, "&#13;", 3);
  }

  /** Escaped texts have no markup. */
  lemma {:induction false} EscapedHasNoMarkup(s: string)
    ensures '<' !in Escape(s) && '>' !in Escape(s) && (s != "" ==> Escape(s) != "")
  {
    if s != "" {
      EscapedHasNoMarkup(s[1..]);
    }
  }

  /** Escaped texts read back. */
  lemma {:induction false} EscapeReadsBack(s: string)
    ensures Unescape(Escape(s)) == s
  {
    if s != "" {
      EscapeReadsBack(s[1..]);
      var w, rest := EscapedChar(s[0]), Escape(s[1..]);
      CharReadsBack(s[0], rest);
      assert Escape(s) == w + rest;
      UnescapeAppend(s[0], w, rest);
    }
  }

  function EscapedChar(c: char): string {
    match c case '&' => "&amp;" case '<' => "&lt;" case '>' => "&gt;" case _ => [c]
  }

  lemma CharReadsBack(c: char, rest: string)
    ensures EscapedChar(c) != "" && FirstChar(EscapedChar(c) + rest) == (c, |EscapedChar(c)|)
  {
    EntityReads(rest);
    assert ([c] + rest)[0] == c;
  }

  function QuotedChar(c: char): string {
    match c
    case '"' => "&quot;" case '\n' => "&#10;" case '\r' => "&#13;" case '\t' => "&#9;"
    case _ => EscapedChar(c)
  }

  lemma QuotedCharReadsBack(c: char, rest: string)
    ensures QuotedChar(c) != "" && '"' !in QuotedChar(c) && FirstChar(QuotedChar(c) + rest) == (c, |QuotedChar(c)|)
  {
    CharReadsBack(c, rest);
    EntityReads(rest);
    if c in {'\n', '\r', '\t'} {
      NumberReads(QuotedChar(c), rest);
    }
  }

  /** Attribute values have no quotes, and read back. */
  lemma {:induction false} QuoteReadsBack(s: string)
    ensures '"' !in Quote(Escape(s)) && Unescape(Quote(Escape(s))) == s
  {
    if s != "" {
      QuoteReadsBack(s[1..]);
      var rest := Quote(Escape(s[1..]));
      QuoteFirst(s[0], Escape(s[1..]));
      assert Escape(s) == EscapedChar(s[0]) + Escape(s[1..]);
      QuotedCharReadsBack(s[0], rest);
      UnescapeAppend(s[0], QuotedChar(s[0]), rest);
    }
  }

  lemma QuoteFirst(c: char, rest: string)
    ensures Quote(EscapedChar(c) + rest) == QuotedChar(c) + Quote(rest)
  {
    if c in {'&', '<', '>'} {
      QuotePlain(EscapedChar(c), rest);
    } else {
      assert ([c] + rest)[0] == c && ([c] + rest)[1..] == rest;
    }
  }

  predicate PlainChar(c: char) { c !in {'"', '\n', '\r', '\t'} }

  lemma {:induction false} QuotePlain(w: string, rest: string)
    requires forall i :: 0 <= i < |w| ==> PlainChar(w[i])
    ensures Quote(w + rest) == w + Quote(rest)
  {
    if w == "" {
      assert w + rest == rest;
    } else {
      assert (w + rest)[0] == w[0] && (w + rest)[1..] == w[1..] + rest && PlainChar(w[0]);
      QuotePlain(w[1..], rest);
      assert [w[0]] + (w[1..] + Quote(rest)) == w + Quote(rest);
    }
  }

  // ---------------------------------------------------------------- tags

  /** Names that XML allows have none of these characters. */
  predicate TagName(name: string) {
    name != "" && forall c | c in name :: c !in {' ', '<', '>', '/', '=', '"'}
  }

  predicate GoodAttributes(attributes: seq<(string, Value)>) {
    forall i | 0 <= i < |attributes| :: TagName(attributes[i].0) && attributes[i].1.Text?
  }

  lemma {:induction false} UptoIs(w: string, rest: string, stop: set<char>)
    requires (forall c | c in w :: c !in stop) && (rest == "" || rest[0] in stop)
    ensures Upto(w + rest, stop) == |w|
  {
    if w == "" {
      assert w + rest == rest;
    } else {
      assert (w + rest)[0] == w[0] && (w + rest)[1..] == w[1..] + rest;
      UptoIs(w[1..], rest, stop);
    }
  }

  function AttributeText(name: string, value: string, more: string): string {
    " " + (name + ("=\"" + (value + ("\"" + more))))
  }

  /** One name="value" pair. */
  lemma OneAttribute(name: string, value: string, more: string)
    requires TagName(name) && '"' !in value
    ensures var (others, rest) := ReadAttributes(more);
            ReadAttributes(AttributeText(name, value, more))
            == ([(name, Text(Unescape(value)))] + others, rest)
  {
    var u := "\"" + more;
    var t := "=\"" + (value + u);
    var s := " " + (name + t);
    assert s[1..] == name + t;
    UptoIs(name, t, {'='});
    assert s[1..1 + |name|] == name && s[1 + |name|..] == t;
    assert t[2..] == value + u;
    UptoIs(value, u, {'"'});
    assert t[2..2 + |value|] == value && t[2 + |value|..] == u && u[1..] == more;
  }

  lemma {:induction false} AttributesReadBack(attributes: seq<(string, Value)>, rest: string)
    requires GoodAttributes(attributes) && (rest == "" || rest[0] != ' ')
    ensures ReadAttributes(Assignments(attributes) + rest) == (attributes, rest)
  {
    if attributes == [] {
      assert Assignments(attributes) + rest == rest;
    } else {
      assert forall i | 0 <= i < |attributes[1..]| :: attributes[1..][i] == attributes[i + 1];
      AttributesReadBack(attributes[1..], rest);
      AssignmentText(attributes, rest);
      FirstReadsBack(attributes[0].0, attributes[0].1.text, Assignments(attributes[1..]) + rest, attributes[1..], rest);
      assert attributes == [attributes[0]] + attributes[1..];
    }
  }

  lemma FirstReadsBack(name: string, text: string, more: string, others: seq<(string, Value)>, rest: string)
    requires TagName(name) && ReadAttributes(more) == (others, rest)
    ensures ReadAttributes(AttributeText(name, Quote(Escape(text)), more)) == ([(name, Text(text))] + others, rest)
  {
    QuoteReadsBack(text);
    OneAttribute(name, Quote(Escape(text)), more);
  }

  lemma AssignmentText(attributes: seq<(string, Value)>, rest: string)
    requires attributes != [] && attributes[0].1.Text?
    ensures Assignments(attributes) + rest
         == AttributeText(attributes[0].0, Quote(Escape(attributes[0].1.text)), Assignments(attributes[1..]) + rest)
  {
    Regrouped(attributes[0].0, Quote(Escape(attributes[0].1.text)), Assignments(attributes[1..]), rest);
  }

  lemma Regrouped(name: string, value: string, more: string, rest: string)
    ensures (" " + name + "=\"" + value + "\"" + more) + rest == AttributeText(name, value, more + rest)
  {
    var tail := more + rest;
    Associates(" " + name + "=\"" + value + "\"", more, rest);
    Associates(" " + name + "=\"" + value, "\"", tail);
    Associates(" " + name + "=\"", value, "\"" + tail);
    Associates(" " + name, "=\"", value + ("\"" + tail));
    Associates(" ", name, "=\"" + (value + ("\"" + tail)));
  }

  // ---------------------------------------------------------------- the text of tokens

  predicate Readable(t: Token) {
    match t
    case Declaration => false
    case Open(name, attributes) => TagName(name) && GoodAttributes(attributes)
    case Close(name) => TagName(name)
    case Data(_) => true
  }

  predicate AllReadable(ts: seq<Token>) {
    forall i | 0 <= i < |ts| :: Readable(ts[i])
  }

  /** Texts that follow each other are one text, and an empty text is none. */
  function Merged(ts: seq<Token>): seq<Token>
    decreases |ts|
  {
    if ts == [] then []
    else if !ts[0].Data? then [ts[0]] + Merged(ts[1..])
    else if |ts| > 1 && ts[1].Data? then Merged([Data(ts[0].text + ts[1].text)] + ts[2..])
    else if ts[0].text == "" then Merged(ts[1..])
    else [ts[0]] + Merged(ts[1..])
  }

  lemma OpenReadsBack(name: string, attributes: seq<(string, Value)>, rest: string)
    requires TagName(name) && GoodAttributes(attributes)
    ensures ReadText(Written(Open(name, attributes)) + rest) == [Open(name, attributes)] + ReadText(rest)
  {
    var tail := Assignments(attributes) + (">" + rest);
    assert Written(Open(name, attributes)) + rest == "<" + (name + tail);
    assert tail[0] in {' ', '>'} by {
      assert attributes != [] ==> Assignments(attributes)[0] == ' ';
    }
    AttributesReadBack(attributes, ">" + rest);
    assert (">" + rest)[1..] == rest;
    TagReads(name, tail);
  }

  lemma TagReads(name: string, tail: string)
    requires TagName(name) && tail != "" && tail[0] in {' ', '>'}
    ensures var (attributes, rest) := ReadAttributes(tail);
            ReadText("<" + (name + tail)) == if rest == "" then [] else [Open(name, attributes)] + ReadText(rest[1..])
  {
    var s := "<" + (name + tail);
    assert name[0] in name && s[1] == name[0] && s[1..] == name + tail;
    UptoIs(name, tail, {' ', '>'});
    assert s[1..1 + |name|] == name && s[1 + |name|..] == tail;
  }

  lemma CloseReadsBack(name: string, rest: string)
    requires TagName(name)
    ensures ReadText(Written(Close(name)) + rest) == [Close(name)] + ReadText(rest)
  {
    var s := Written(Close(name)) + rest;
    assert s[0] == '<' && s[1] == '/' && s[2..] == name + (">" + rest);
    UptoIs(name, ">" + rest, {'>'});
    assert s[2..2 + |name|] == name && s[3 + |name|..] == rest;
  }

  lemma DataReadsBack(text: string, rest: string)
    requires text != "" && (rest == "" || rest[0] == '<')
    ensures ReadText(Escape(text) + rest) == [Data(text)] + ReadText(rest)
  {
    EscapeReadsBack(text);
    EscapedHasNoMarkup(text);
    var w := Escape(text);
    var s := w + rest;
    assert w[0] in w && s[0] == w[0];
    UptoIs(w, rest, {'<'});
    assert s[..|w|] == w && s[|w|..] == rest;
  }

  lemma {:induction false} EscapeAppend(s: string, t: string)
    ensures Escape(s + t) == Escape(s) + Escape(t)
  {
    if s == "" {
      assert s + t == t;
    } else {
      assert (s + t)[0] == s[0] && (s + t)[1..] == s[1..] + t;
      EscapeAppend(s[1..], t);
    }
  }

  lemma TagsBegin(ts: seq<Token>)
    requires AllReadable(ts) && ts != [] && !ts[0].Data?
    ensures Print(ts) != "" && Print(ts)[0] == '<'
  {
    assert Readable(ts[0]) && Written(ts[0])[0] == '<';
  }

  /** What the renderers print reads back as the tokens: names, attributes and texts, unescaped. */
  lemma {:induction false} TextReadsBack(ts: seq<Token>)
    requires AllReadable(ts)
    ensures ReadText(Print(ts)) == Merged(ts)
    decreases |ts|
  {
    if ts != [] {
      assert Readable(ts[0]) && forall i | 0 <= i < |ts[1..]| :: ts[1..][i] == ts[i + 1];
      assert AllReadable(ts[1..]);
      match ts[0]
      case Open(name, attributes) =>
        TextReadsBack(ts[1..]);
        OpenReadsBack(name, attributes, Print(ts[1..]));
      case Close(name) =>
        TextReadsBack(ts[1..]);
        CloseReadsBack(name, Print(ts[1..]));
      case Data(text) => DataText(ts);
    }
  }

  /** Two texts after each other are printed as one. */
  lemma PrintJoined(s: string, t: string, rest: seq<Token>)
    ensures Print([Data(s)] + ([Data(t)] + rest)) == Print([Data(s + t)] + rest)
  {
    PrintFirst(Data(s), [Data(t)] + rest);
    PrintFirst(Data(t), rest);
    PrintFirst(Data(s + t), rest);
    EscapeAppend(s, t);
    Associates(Escape(s), Escape(t), Print(rest));
  }

  lemma PrintFirst(t: Token, rest: seq<Token>)
    ensures Print([t] + rest) == Written(t) + Print(rest)
  {
    assert ([t] + rest)[1..] == rest;
  }

  lemma {:induction false} DataText(ts: seq<Token>)
    requires AllReadable(ts) && ts != [] && ts[0].Data?
    ensures ReadText(Print(ts)) == Merged(ts)
    decreases |ts|, 0
  {
    if |ts| > 1 && ts[1].Data? {
      var joined := [Data(ts[0].text + ts[1].text)] + ts[2..];
      PrintJoined(ts[0].text, ts[1].text, ts[2..]);
      assert ts == [Data(ts[0].text)] + ([Data(ts[1].text)] + ts[2..]);
      assert forall i | 0 < i < |joined| :: joined[i] == ts[i + 1];
      TextReadsBack(joined);
    } else {
      assert forall i | 0 <= i < |ts[1..]| :: ts[1..][i] == ts[i + 1];
      TextReadsBack(ts[1..]);
      if |ts| > 1 {
        TagsBegin(ts[1..]);
      }
      LastText(ts[0].text, ts[1..]);
    }
  }

  lemma LastText(text: string, rest: seq<Token>)
    requires rest == [] || (Print(rest) != "" && Print(rest)[0] == '<')
    ensures ReadText(Print([Data(text)] + rest)) == (if text == "" then [] else [Data(text)]) + ReadText(Print(rest))
  {
    assert ([Data(text)] + rest)[1..] == rest;
    if text == "" {
      assert "" + Print(rest) == Print(rest);
    } else {
      DataReadsBack(text, Print(rest));
    }
  }

  const FIRST_LINE := "<?xml version=\"1.0\" encoding=\"utf-8\"?>\n"

  /** The text is the declaration's line and then something that reads as the tokens of an element. */
  ghost predicate ReadsAs(text: string, x: Xml) {
    FIRST_LINE <= text && ReadText(text[|FIRST_LINE|..]) == Merged(Tokens([x]))
  }

  /** A document's text: the declaration, and after it the tokens of the root element. */
  lemma DocumentTextReadsBack(k: Kind, attributes: seq<(string, Value)>, items: seq<Xml>)
    requires AllReadable(Tokens([Element(k.root, attributes, items)]))
    ensures ReadsAs(Document(k, attributes, items), Element(k.root, attributes, items))
  {
    var ts := Tokens([Element(k.root, attributes, items)]);
    PrintAppend([Declaration], ts);
    PrintOne(Declaration);
    assert Document(k, attributes, items) == FIRST_LINE + Print(ts);
    TextReadsBack(ts);
  }

  /** The chunks of a stream of submissions, put together, read back as the root element with the server's time. */
  lemma InstanceStreamReadsBack(k: Kind, time: string, items: seq<Item>)
    requires AllReadable(Tokens([Element(k.root, [("serverTime", Text(time))], Streamed(k, items))]))
    ensures ReadsAs(Flatten(InstanceOpening(k, time) + ItemChunks(k, items) + [Written(Close(k.root))]),
              Element(k.root, [("serverTime", Text(time))], Streamed(k, items)))
  {
    InstanceChunksMakeDocument(k, time, items);
    DocumentTextReadsBack(k, [("serverTime", Text(time))], Streamed(k, items));
  }

  /** Those of a form list or manifest read back as the root element with its namespace. */
  lemma FormStreamReadsBack(k: Kind, xmlns: string, items: seq<Item>)
    requires AllReadable(Tokens([Element(k.root, [("xmlns", Text(xmlns))], Streamed(k, items))]))
    ensures ReadsAs(Flatten(FormOpening(k, xmlns) + ItemChunks(k, items) + [Written(Close(k.root)), ""]),
              Element(k.root, [("xmlns", Text(xmlns))], Streamed(k, items)))
  {
    FormChunksMakeDocument(k, xmlns, items);
    DocumentTextReadsBack(k, [("xmlns", Text(xmlns))], Streamed(k, items));
  }
}
