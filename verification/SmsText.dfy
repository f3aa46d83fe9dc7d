/** Splitting text as str.split does: at white space, and at a separator. */
module SmsText {
  import opened Text

  /** Length of the leading run of characters that are not white space. */
  function WordLength(s: string): (n: nat)
    ensures n <= |s|
    ensures forall i :: 0 <= i < n ==> !IsSpace(s[i])
    ensures n < |s| ==> IsSpace(s[n])
  {
    if s == "" || IsSpace(s[0]) then 0 else 1 + WordLength(s[1..])
  }

  /** s.split() */
  function Words(s: string): seq<string>
    decreases |s|
  {
    if s == "" then []
    else if IsSpace(s[0]) then Words(s[1..])
    else
      var n := WordLength(s);
      [s[..n]] + Words(s[n..])
  }

  predicate IsWord(w: string) {
    w != "" && forall i | 0 <= i < |w| :: !IsSpace(w[i])
  }

  lemma {:induction false} WordLengthOf(w: string, rest: string)
    requires forall i :: 0 <= i < |w| ==> !IsSpace(w[i])
    requires rest == "" || IsSpace(rest[0])
    ensures WordLength(w + rest) == |w|
  {
    var all := w + rest;
    if w == "" {
      assert all == rest;
    } else {
      assert all[0] == w[0] && all[1..] == w[1..] + rest;
      WordLengthOf(w[1..], rest);
    }
  }

  lemma FirstWord(w: string, rest: string)
    requires IsWord(w) && (rest == "" || IsSpace(rest[0]))
    ensures Words(w + rest) == [w] + Words(rest)
  {
    var all := w + rest;
    WordLengthOf(w, rest);
    assert all[0] == w[0] && all[..|w|] == w && all[|w|..] == rest;
  }

  lemma WordAndTail(w: string, tail: string)
    requires IsWord(w)
    ensures Words(w + (" " + tail)) == [w] + Words(tail)
  {
    var rest := " " + tail;
    assert IsSpace(rest[0]) && rest[1..] == tail;
    FirstWord(w, rest);
  }

  /** Joining words with single spaces and splitting gives them back. */
  lemma {:induction false} WordsOfJoin(ws: seq<string>)
    requires forall i :: 0 <= i < |ws| ==> IsWord(ws[i])
    ensures Words(Join(ws, " ")) == ws
  {
    if |ws| == 1 {
      FirstWord(ws[0], "");
      assert ws[0] + "" == ws[0];
    } else if |ws| > 1 {
      var tail := Join(ws[1..], " ");
      WordsOfJoin(ws[1..]);
      WordAndTail(ws[0], tail);
      assert (ws[0] + " ") + tail == ws[0] + (" " + tail);
    }
  }

  // ---------------------------------------------------------------- splitting at a separator

  predicate StartsWith(s: string, sep: string) {
    |sep| <= |s| && forall k | 0 <= k < |sep| :: s[k] == sep[k]
  }

  /** s.split(sep): at the leftmost occurrence, then on. */
  function SplitBy(s: string, sep: string): (parts: seq<string>)
    requires sep != ""
    ensures |parts| > 0
    decreases |s|
  {
    if s == "" then [""]
    else if StartsWith(s, sep) then [""] + SplitBy(s[|sep|..], sep)
    else
      var rest := SplitBy(s[1..], sep);
      [[s[0]] + rest[0]] + rest[1..]
  }

  predicate Apart(s: string, sep: string) {
    forall i | 0 <= i < |s| :: s[i] !in sep
  }

  lemma {:induction false} SplitNowhere(s: string, sep: string)
    requires sep != "" && Apart(s, sep)
    ensures SplitBy(s, sep) == [s]
  {
    if s != "" {
      assert sep[0] in sep && s[0] != sep[0];
      SplitNowhere(s[1..], sep);
      assert [s[0]] + s[1..] == s;
    }
  }

  lemma {:induction false} SplitNext(before: string, sep: string, after: string)
    requires sep != "" && Apart(before, sep)
    ensures SplitBy(before + (sep + after), sep) == [before] + SplitBy(after, sep)
  {
    var all := before + (sep + after);
    if before == "" {
      assert all == sep + after && StartsWith(all, sep) && all[|sep|..] == after;
    } else {
      assert sep[0] in sep && before[0] != sep[0];
      assert all[0] == before[0] && all[1..] == before[1..] + (sep + after);
      SplitNext(before[1..], sep, after);
      assert [before[0]] + before[1..] == before;
    }
  }

  /** Segments without the separator's characters, each behind a separator. */
  function Segments(parts: seq<string>, sep: string): string {
    if parts == [] then "" else sep + parts[0] + Segments(parts[1..], sep)
  }

  lemma {:induction false} SplitSegments(before: string, parts: seq<string>, sep: string)
    requires sep != "" && Apart(before, sep) && forall i :: 0 <= i < |parts| ==> Apart(parts[i], sep)
    ensures SplitBy(before + Segments(parts, sep), sep) == [before] + parts
    decreases |parts|
  {
    if parts == [] {
      assert before + "" == before;
      SplitNowhere(before, sep);
    } else {
      var after := parts[0] + Segments(parts[1..], sep);
      assert Segments(parts, sep) == sep + after;
      SplitSegments(parts[0], parts[1..], sep);
      SplitNext(before, sep, after);
      assert [parts[0]] + parts[1..] == parts;
    }
  }

  lemma {:induction false} JoinApart(ws: seq<string>, sep: string)
    requires (forall i :: 0 <= i < |ws| ==> Apart(ws[i], sep)) && ' ' !in sep
    ensures Apart(Join(ws, " "), sep)
  {
    if |ws| > 1 {
      JoinApart(ws[1..], sep);
    }
  }
}
