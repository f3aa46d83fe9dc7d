/**
 Which texts an SMS can hand to a question, whatever it says, and what that means for dates and options
 (onadata/apps/sms_support/parser.py and the compatibility check in tools.py).
 */
module SmsSending {
  import opened Common
  import opened Text
  import opened Grouping
  import opened SmsText
  import opened SmsForm
  import opened SmsParser

  // ---------------------------------------------------------------- texts without the separator

  predicate Free(s: string, sep: string) { !Contains(s, sep) }

  lemma ContainsTransitive(s: string, w: string, t: string)
    requires Contains(s, w) && Contains(w, t)
    ensures Contains(s, t)
  {
    var i :| 0 <= i <= |s| && StartsWith(s[i..], w);
    var j :| 0 <= j <= |w| && StartsWith(w[j..], t);
    assert StartsWith(s[i + j..], t);
  }

  lemma ContainsInPlace(before: string, s: string, after: string, t: string)
    requires Contains(s, t)
    ensures Contains(before + (s + after), t)
  {
    var i :| 0 <= i <= |s| && StartsWith(s[i..], t);
    assert StartsWith((before + (s + after))[|before| + i..], t);
  }

  lemma StartsWithin(t: string, u: string, sep: string)
    requires |sep| <= |t|
    ensures StartsWith(t + u, sep) <==> StartsWith(t, sep)
  {
    assert forall k | 0 <= k < |sep| :: (t + u)[k] == t[k];
  }

  /** Around a space, a separator without a space lies on one side. */
  lemma FreeAroundSpace(a: string, b: string, sep: string)
    requires ' ' !in sep && sep != "" && Free(a, sep) && Free(b, sep)
    ensures Free((a + " ") + b, sep)
  {
    var s := (a + " ") + b;
    forall i | 0 <= i <= |s|
      ensures !StartsWith(s[i..], sep)
    {
      if i > |a| {
        assert s[i..] == b[i - |a| - 1..];
      } else if i + |sep| <= |a| {
        assert s[i..] == a[i..] + (" " + b);
        StartsWithin(a[i..], " " + b, sep);
      } else {
        assert sep[|a| - i] in sep && (i + (|a| - i) < |s| ==> s[i..][|a| - i] == ' ');
      }
    }
  }

  lemma {:induction false} JoinFree(ws: seq<string>, sep: string)
    requires ' ' !in sep && sep != "" && forall i :: 0 <= i < |ws| ==> Free(ws[i], sep)
    ensures Free(Join(ws, " "), sep)
  {
    if |ws| > 1 {
      JoinFree(ws[1..], sep);
      FreeAroundSpace(ws[0], Join(ws[1..], " "), sep);
    }
  }

  lemma {:induction false} JoinContains(ws: seq<string>, i: nat)
    requires i < |ws|
    ensures Contains(Join(ws, " "), ws[i])
  {
    var s := Join(ws, " ");
    if |ws| == 1 {
      assert StartsWith(s[0..], ws[0]);
    } else if i == 0 {
      assert StartsWith(s[0..], ws[0]);
    } else {
      JoinContains(ws[1..], i - 1);
      var tail := Join(ws[1..], " ");
      ContainsInPlace(ws[0] + " ", tail, "", ws[i]);
      assert tail + "" == tail;
    }
  }

  /** The words of a text lie in it. */
  lemma {:induction false} WordsLieWithin(s: string, k: nat)
    requires k < |Words(s)|
    ensures IsWord(Words(s)[k]) && Contains(s, Words(s)[k])
    decreases |s|
  {
    if IsSpace(s[0]) {
      WordsLieWithin(s[1..], k);
      ContainsInPlace([s[0]], s[1..], "", Words(s)[k]);
      assert [s[0]] + (s[1..] + "") == s;
    } else {
      var n := WordLength(s);
      if k == 0 {
        assert StartsWith(s[0..], s[..n]);
      } else {
        WordsLieWithin(s[n..], k - 1);
        ContainsInPlace(s[..n], s[n..], "", Words(s)[k]);
        assert s[..n] + (s[n..] + "") == s;
      }
    }
  }

  lemma FreeTail(s: string, sep: string)
    requires s != ""
    ensures Free(s, sep) <==> Free(s[1..], sep) && !StartsWith(s, sep)
  {
    assert s[0..] == s;
    forall i | 0 <= i <= |s[1..]|
      ensures s[1..][i..] == s[i + 1..]
    {}
    if i :| 0 <= i <= |s| && StartsWith(s[i..], sep) {
      if i > 0 { assert StartsWith(s[1..][i - 1..], sep); }
    }
  }

  /** Nothing that is split off contains the separator. */
  lemma {:induction false} PartsAreFree(s: string, sep: string)
    requires sep != ""
    ensures SplitBy(s, sep)[0] <= s
    ensures forall i :: 0 <= i < |SplitBy(s, sep)| ==> Free(SplitBy(s, sep)[i], sep)
    decreases |s|
  {
    assert Free("", sep);
    if s == "" {
    } else if StartsWith(s, sep) {
      PartsAreFree(s[|sep|..], sep);
    } else {
      PartsAreFree(s[1..], sep);
      FirstPartIsFree(s, SplitBy(s[1..], sep)[0], sep);
    }
  }

  lemma FirstPartIsFree(s: string, rest: string, sep: string)
    requires s != "" && !StartsWith(s, sep) && rest <= s[1..] && Free(rest, sep)
    ensures Free([s[0]] + rest, sep) && [s[0]] + rest <= s
  {
    var first := [s[0]] + rest;
    assert first[1..] == rest && s == first + s[|first|..];
    if |sep| <= |first| {
      StartsWithin(first, s[|first|..], sep);
    }
    FreeTail(first, sep);
  }

  lemma {:induction false} FreeIsWhole(s: string, sep: string)
    requires sep != "" && Free(s, sep)
    ensures SplitBy(s, sep) == [s]
  {
    if s != "" {
      FreeTail(s, sep);
      FreeIsWhole(s[1..], sep);
      assert [s[0]] + s[1..] == s;
    }
  }

  lemma FreeAfterSeparator(s: string, sep: string)
    requires sep != "" && Free(s, sep)
    ensures SplitBy(sep + s, sep) == ["", s]
  {
    assert StartsWith(sep + s, sep) && (sep + s)[|sep|..] == s;
    FreeIsWhole(s, sep);
  }

  // ---------------------------------------------------------------- what a group's words can be

  predicate GoodWords(words: seq<string>, sep: string) {
    words != [] && forall i | 0 <= i < |words| :: IsWord(words[i]) && Free(words[i], sep)
  }

  ghost predicate GoodSms(sms: Sms, sep: string) {
    forall id :: Get(sms, id).Some? ==> GoodWords(Get(sms, id).value, sep)
  }

  lemma PartIsGood(part: string, sep: string)
    requires Free(part, sep) && |Words(part)| >= 2
    ensures GoodWords(Words(part)[1..], sep)
  {
    var words := Words(part);
    forall i | 0 <= i < |words[1..]|
      ensures IsWord(words[1..][i]) && Free(words[1..][i], sep)
    {
      WordsLieWithin(part, i + 1);
      if Contains(words[i + 1], sep) {
        ContainsTransitive(part, words[i + 1], sep);
      }
    }
  }

  lemma {:induction false} GroupsAreGood(parts: seq<string>, acc: Sms, sep: string)
    requires (forall i :: 0 <= i < |parts| ==> Free(parts[i], sep)) && GoodSms(acc, sep) && ReadGroups(parts, acc).Ok?
    ensures GoodSms(ReadGroups(parts, acc).value, sep)
    decreases |parts|
  {
    if parts != [] {
      var words := Words(parts[0]);
      PartIsGood(parts[0], sep);
      forall id | Get(Put(acc, words[0], words[1..]), id).Some?
        ensures GoodWords(Get(Put(acc, words[0], words[1..]), id).value, sep)
      {
        GetPut(acc, words[0], words[1..], id);
      }
      GroupsAreGood(parts[1..], Put(acc, words[0], words[1..]), sep);
    }
  }

  // ---------------------------------------------------------------- what is handed to a question

  /** The text that an SMS hands to a question, if it can be read that far. */
  function TextFor(form: Form, sms: string, g: Group, j: nat): Option<string>
    requires j < |g.questions|
  {
    match ReadGroups(SplitBy(sms, SeparatorOf(form))[1..], [])
    case Err(_) => None
    case Ok(groups) =>
      match RawText(g.questions, j, Get(groups, g.smsField), form.allowMedia)
      case Err(_) => None
      case Ok(text) => Some(text)
  }

  /** Some SMS hands this text to the question. */
  ghost predicate Handed(form: Form, g: Group, j: nat, v: string)
    requires j < |g.questions|
  {
    exists sms: string :: TextFor(form, sms, g, j) == Some(v)
  }

  /** The group has an id that can be written, and a space separates words only. */
  predicate Addressable(form: Form, g: Group) {
    ' ' !in SeparatorOf(form) && IsWord(g.smsField) && Free(g.smsField, SeparatorOf(form))
  }

  /** Words with single spaces between them. */
  predicate SingleSpaced(v: string) { v == Join(Words(v), " ") }

  /** Some SMS hands a text to a question if and only if the text is free of the separator and one word - for the last
      question of the group, words with single spaces, or nothing if there is a question before. */
  lemma HandedExactly(form: Form, g: Group, j: nat, v: string)
    requires Addressable(form, g) && j < |g.questions|
    ensures Handed(form, g, j, v) <==>
              && Free(v, SeparatorOf(form))
              && if IsLast(j, g.questions) then SingleSpaced(v) && (v == "" ==> j > 0) else IsWord(v)
  {
    var sep := SeparatorOf(form);
    if sms: string :| TextFor(form, sms, g, j) == Some(v) {
      var parts := SplitBy(sms, sep)[1..];
      PartsAreFree(sms, sep);
      GroupsAreGood(parts, [], sep);
      var words := Get(ReadGroups(parts, []).value, g.smsField);
      TextIsGood(g, j, words.value, form.allowMedia, sep);
    }
    if Free(v, sep) && if IsLast(j, g.questions) then SingleSpaced(v) && (v == "" ==> j > 0) else IsWord(v) {
      var words := Sending(g, j, v);
      SendingIsGood(g, j, v, sep);
      SendingIsTaken(g, j, v, form.allowMedia);
      OneGroupReads(form, g, words);
      assert TextFor(form, sep + Join([g.smsField] + words, " "), g, j) == Some(v);
    }
  }

  lemma TextIsGood(g: Group, j: nat, words: seq<string>, allowMedia: bool, sep: string)
    requires GoodWords(words, sep) && ' ' !in sep && sep != "" && j < |g.questions|
    requires RawText(g.questions, j, Some(words), allowMedia).Ok?
    ensures var v := RawText(g.questions, j, Some(words), allowMedia).value;
            Free(v, sep) && if IsLast(j, g.questions) then SingleSpaced(v) && (v == "" ==> j > 0) else IsWord(v)
  {
    if IsLast(j, g.questions) {
      var taken := if j <= |words| then words[j..] else [];
      JoinFree(taken, sep);
      WordsOfJoin(taken);
      assert j == 0 ==> taken == words && IsWord(taken[0]);
      assert taken != [] ==> Join(taken, " ") != "" by {
        if taken != [] { assert Words(Join(taken, " ")) != []; }
      }
    }
  }

  /** Words that make the parser hand a text to a question, whatever is skipped before it. */
  function Sending(g: Group, j: nat, v: string): seq<string>
    requires j < |g.questions|
  {
    if !IsLast(j, g.questions) then seq(j + 1, _ => v)
    else if v == "" then [g.smsField]
    else seq(j, _ => g.smsField) + Words(v)
  }

  lemma SendingIsGood(g: Group, j: nat, v: string, sep: string)
    requires ' ' !in sep && sep != "" && j < |g.questions| && IsWord(g.smsField) && Free(g.smsField, sep)
        && Free(v, sep)
    requires if IsLast(j, g.questions) then SingleSpaced(v) && (v == "" ==> j > 0) else IsWord(v)
    ensures GoodWords(Sending(g, j, v), sep)
  {
    if IsLast(j, g.questions) && v != "" {
      forall i | 0 <= i < |Words(v)|
        ensures IsWord(Words(v)[i]) && Free(Words(v)[i], sep)
      {
        WordsLieWithin(v, i);
        if Contains(Words(v)[i], sep) {
          ContainsTransitive(v, Words(v)[i], sep);
        }
      }
      assert Words(v) != [];
    }
  }

  lemma SendingIsTaken(g: Group, j: nat, v: string, allowMedia: bool)
    requires j < |g.questions|
    requires if IsLast(j, g.questions) then SingleSpaced(v) && (v == "" ==> j > 0) else IsWord(v)
    ensures RawText(g.questions, j, Some(Sending(g, j, v)), allowMedia) == Ok(v)
  {
    var words := Sending(g, j, v);
    if IsLast(j, g.questions) {
      if v == "" {
        assert (if j <= |words| then words[j..] else []) == [];
      } else {
        assert words[j..] == Words(v);
      }
    }
  }

  /** An SMS with one group. */
  lemma OneGroupReads(form: Form, g: Group, words: seq<string>)
    requires Addressable(form, g) && GoodWords(words, SeparatorOf(form))
    ensures var sms := SeparatorOf(form) + Join([g.smsField] + words, " ");
            ReadGroups(SplitBy(sms, SeparatorOf(form))[1..], []) == Ok([(g.smsField, words)])
  {
    var sep, all := SeparatorOf(form), [g.smsField] + words;
    JoinFree(all, sep);
    WordsOfJoin(all);
    var part := Join(all, " ");
    FreeAfterSeparator(part, sep);
    assert SplitBy(sep + part, sep)[1..] == [part];
    assert all[0] == g.smsField && all[1..] == words;
    assert [part][1..] == [];
    assert Put([], g.smsField, words) == [(g.smsField, words)];
  }

  // ---------------------------------------------------------------- dates

  /** A text that is read by the format is one word exactly if the format is. */
  ghost predicate WordByWord(env: Env, format: string) {
    forall v :: env.strptime(format, v).Some? ==> (IsWord(v) <==> IsWord(format))
  }

  /** A date that a question before the last would take can be sent if and only if it is free of the separator and the
      format that the parser reads it by is one word. */
  lemma DateSentExactly(env: Env, form: Form, g: Group, j: nat, v: string)
    requires Addressable(form, g) && j < |g.questions| && !IsLast(j, g.questions)
    requires g.questions[j].kind.Date? || g.questions[j].kind.DateTime?
    requires WordByWord(env, ReadFormat(form, g.questions[j].kind))
    requires CastValue(CasterOf(env, form), g.questions[j], v).Some?
    ensures Handed(form, g, j, v) <==> Free(v, SeparatorOf(form)) && IsWord(ReadFormat(form, g.questions[j].kind))
  {
    HandedExactly(form, g, j, v);
  }

  // ---------------------------------------------------------------- options

  lemma CompatibleOptions(form: Form, g: Group, j: nat)
    requires IsCompatible(form) && g in form.groups && j < |g.questions|
    requires g.questions[j].kind.SelectOne? || g.questions[j].kind.SelectAll?
    ensures DistinctOptions(g.questions[j].choices)
  {
    var i :| 0 <= i < |form.groups| && form.groups[i] == g;
    assert OptionsOk(form.groups[i].questions[j]);
    OptionsDistinct(g.questions[j].choices);
  }

  lemma DistinctTail(choices: seq<Choice>)
    requires DistinctOptions(choices) && choices != []
    ensures DistinctOptions(choices[1..])
  {
    forall i | 0 <= i < |choices[1..]|
      ensures choices[1..][i] == choices[i + 1]
    {}
  }

  /** An option is read as its choice's name, and as no other. */
  lemma {:induction false} OptionNamesChoice(choices: seq<Choice>, k: nat)
    requires DistinctOptions(choices) && k < |choices|
    ensures choices[k].HasOption()
    ensures ChoiceNamed(choices, choices[k].option.value) == Some(choices[k].name)
    ensures ChoicesNamed(choices, choices[k].option.value) == [choices[k].name]
  {
    DistinctTail(choices);
    if k > 0 {
      assert choices[1..][k - 1] == choices[k];
      OptionNamesChoice(choices[1..], k - 1);
      assert [] + [choices[k].name] == [choices[k].name];
    } else {
      NoOtherChoice(choices[1..], choices[0].option.value);
      assert [choices[0].name] + [] == [choices[0].name];
    }
  }

  lemma {:induction false} NoOtherChoice(choices: seq<Choice>, option: string)
    requires forall i | 0 <= i < |choices| :: choices[i].option != Some(option)
    ensures ChoicesNamed(choices, option) == []
  {
    if choices != [] {
      NoOtherChoice(choices[1..], option);
    }
  }

  /** In a form that passes the check, every option of a select-one is read as its own choice; it can be sent if and
      only if it is free of the separator and one word - for the last question, words with single spaces. */
  lemma OptionSentExactly(env: Env, form: Form, g: Group, j: nat, k: nat)
    requires IsCompatible(form) && g in form.groups && Addressable(form, g)
    requires j < |g.questions| && g.questions[j].kind.SelectOne? && k < |g.questions[j].choices|
    ensures var choice := g.questions[j].choices[k];
            && choice.HasOption()
            && CastValue(CasterOf(env, form), g.questions[j], choice.option.value) == Some(choice.name)
            && (Handed(form, g, j, choice.option.value) <==>
                  && Free(choice.option.value, SeparatorOf(form))
                  && if IsLast(j, g.questions) then SingleSpaced(choice.option.value) else IsWord(choice.option.value))
  {
    CompatibleOptions(form, g, j);
    OptionNamesChoice(g.questions[j].choices, k);
    HandedExactly(form, g, j, g.questions[j].choices[k].option.value);
  }

  predicate AllBelow(ks: seq<nat>, n: nat) {
    forall i | 0 <= i < |ks| :: ks[i] < n
  }

  function OptionsAt(choices: seq<Choice>, ks: seq<nat>): seq<string>
    requires DistinctOptions(choices) && AllBelow(ks, |choices|)
  {
    if ks == [] then [] else [choices[ks[0]].option.value] + OptionsAt(choices, ks[1..])
  }

  function NamesAt(choices: seq<Choice>, ks: seq<nat>): seq<string>
    requires AllBelow(ks, |choices|)
  {
    if ks == [] then [] else [choices[ks[0]].name] + NamesAt(choices, ks[1..])
  }

  lemma {:induction false} OptionsAreNamed(choices: seq<Choice>, ks: seq<nat>)
    requires DistinctOptions(choices) && AllBelow(ks, |choices|)
    ensures AllNamed(choices, OptionsAt(choices, ks)) == NamesAt(choices, ks)
  {
    if ks != [] {
      OptionNamesChoice(choices, ks[0]);
      OptionsAreNamed(choices, ks[1..]);
      assert OptionsAt(choices, ks)[1..] == OptionsAt(choices, ks[1..]);
    }
  }

  lemma {:induction false} OptionAt(choices: seq<Choice>, ks: seq<nat>, i: nat)
    requires DistinctOptions(choices) && AllBelow(ks, |choices|) && i < |OptionsAt(choices, ks)|
    ensures |OptionsAt(choices, ks)| == |ks| && OptionsAt(choices, ks)[i] == choices[ks[i]].option.value
  {
    if i > 0 {
      OptionAt(choices, ks[1..], i - 1);
    } else {
      OptionCount(choices, ks);
    }
  }

  lemma {:induction false} OptionCount(choices: seq<Choice>, ks: seq<nat>)
    requires DistinctOptions(choices) && AllBelow(ks, |choices|)
    ensures |OptionsAt(choices, ks)| == |ks|
  {
    if ks != [] {
      OptionCount(choices, ks[1..]);
    }
  }

  /** In a form that passes the check, a select-all is its group's last question. */
  lemma SelectAllIsLast(form: Form, g: Group, j: nat)
    requires IsCompatible(form) && g in form.groups && j < |g.questions| && g.questions[j].kind.SelectAll?
    ensures IsLast(j, g.questions)
  {
    assert GroupPlacedWell(form, g);
    assert PlacedWell(form, g.questions, j);
  }

  lemma PickedAreGood(form: Form, q: Question, ks: seq<nat>)
    requires DistinctOptions(q.choices) && ks != [] && AllBelow(ks, |q.choices|)
    requires forall i | 0 <= i < |ks| :: CanBePicked(form, q, ks[i])
    ensures GoodWords(OptionsAt(q.choices, ks), SeparatorOf(form))
  {
    var options := OptionsAt(q.choices, ks);
    OptionCount(q.choices, ks);
    forall i | 0 <= i < |options|
      ensures IsWord(options[i]) && Free(options[i], SeparatorOf(form))
    {
      OptionAt(q.choices, ks, i);
      assert CanBePicked(form, q, ks[i]);
    }
  }

  lemma ChoicesRead(c: Caster, q: Question, ks: seq<nat>, v: string)
    requires q.kind.SelectAll? && DistinctOptions(q.choices) && AllBelow(ks, |q.choices|)
    requires v != "" && Words(v) == OptionsAt(q.choices, ks)
    ensures CastValue(c, q, v) == Some(Join(NamesAt(q.choices, ks), " "))
  {
    OptionsAreNamed(q.choices, ks);
  }

  /** The choices' options are handed to a select-all in last place, and read as these choices. */
  ghost predicate ComeTogether(env: Env, form: Form, g: Group, j: nat, ks: seq<nat>)
    requires j < |g.questions| && DistinctOptions(g.questions[j].choices) && AllBelow(ks, |g.questions[j].choices|)
  {
    var v := Join(OptionsAt(g.questions[j].choices, ks), " ");
    && Handed(form, g, j, v)
    && CastValue(CasterOf(env, form), g.questions[j], v) == Some(Join(NamesAt(g.questions[j].choices, ks), " "))
  }

  lemma LastChoicesSent(env: Env, form: Form, g: Group, j: nat, ks: seq<nat>)
    requires Addressable(form, g) && j < |g.questions| && g.questions[j].kind.SelectAll? && IsLast(j, g.questions)
    requires DistinctOptions(g.questions[j].choices) && ks != [] && AllBelow(ks, |g.questions[j].choices|)
    requires forall i | 0 <= i < |ks| :: CanBePicked(form, g.questions[j], ks[i])
    ensures ComeTogether(env, form, g, j, ks)
  {
    var q := g.questions[j];
    PickedAreGood(form, q, ks);
    var v := Join(OptionsAt(q.choices, ks), " ");
    GoodWordsJoined(OptionsAt(q.choices, ks), SeparatorOf(form));
    ChoicesRead(CasterOf(env, form), q, ks, v);
    HandedExactly(form, g, j, v);
  }

  /** In a form that passes the check, any choices of a select-all whose options are words free of the separator can be
      sent together, in any order, and are read as these choices. */
  lemma ChoicesSent(env: Env, form: Form, g: Group, j: nat, ks: seq<nat>)
    requires IsCompatible(form) && g in form.groups && Addressable(form, g) && j < |g.questions|
        && g.questions[j].kind.SelectAll?
    requires ks != [] && AllBelow(ks, |g.questions[j].choices|)
    requires forall i | 0 <= i < |ks| :: CanBePicked(form, g.questions[j], ks[i])
    ensures DistinctOptions(g.questions[j].choices) && ComeTogether(env, form, g, j, ks)
  {
    CompatibleOptions(form, g, j);
    SelectAllIsLast(form, g, j);
    LastChoicesSent(env, form, g, j, ks);
  }

  lemma GoodWordsJoined(ws: seq<string>, sep: string)
    requires GoodWords(ws, sep) && ' ' !in sep && sep != ""
    ensures var v := Join(ws, " "); v != "" && Words(v) == ws && SingleSpaced(v) && Free(v, sep)
  {
    WordsOfJoin(ws);
    JoinFree(ws, sep);
  }

  predicate CanBePicked(form: Form, q: Question, k: nat)
    requires k < |q.choices|
  {
    var option := q.choices[k].option;
    option.Some? && IsWord(option.value) && Free(option.value, SeparatorOf(form))
  }

  /** A choice of a select-all can be picked at all if and only if its option is a word free of the separator. */
  lemma PickedExactly(form: Form, g: Group, j: nat, k: nat)
    requires IsCompatible(form) && g in form.groups && Addressable(form, g)
    requires j < |g.questions| && g.questions[j].kind.SelectAll? && k < |g.questions[j].choices|
    ensures g.questions[j].choices[k].HasOption()
    ensures (exists v :: Handed(form, g, j, v) && g.questions[j].choices[k].option.value in Words(v))
            <==> CanBePicked(form, g.questions[j], k)
  {
    var q := g.questions[j];
    CompatibleOptions(form, g, j);
    SelectAllIsLast(form, g, j);
    var option := q.choices[k].option.value;
    if v :| Handed(form, g, j, v) && option in Words(v) {
      HandedExactly(form, g, j, v);
      var i :| 0 <= i < |Words(v)| && Words(v)[i] == option;
      WordsLieWithin(v, i);
      if Contains(option, SeparatorOf(form)) {
        ContainsTransitive(v, option, SeparatorOf(form));
      }
    }
    if CanBePicked(form, q, k) {
      OneWord(option);
      HandedExactly(form, g, j, option);
      assert Handed(form, g, j, option) && option in Words(option);
    }
  }

  // ---------------------------------------------------------------- forms that pass the check

  function TwoQuestions(dateFormat: string, first: Question): Form {
    var last := Question("remark", FreeText, "", false, false, []);
    Form("", false, dateFormat, "", [Group(true, "group", "g", [first, last])])
  }

  const WHEN_FORMAT := "%Y-%m-%d %H:%M"

  /** The check reads "sms_datetime_format", the parser "sms_date_format". */
  function WhenForm(): Form {
    TwoQuestions(WHEN_FORMAT, Question("when", DateTime, "", false, false, []))
  }

  /** "upper side" is the option of a select-one before the last question. */
  function SideForm(): Form {
    TwoQuestions("", Question("side", SelectOne, "", false, false, [Choice("top", Some("upper side"))]))
  }

  lemma ApartIsFree(s: string, sep: string)
    requires sep != "" && Apart(s, sep)
    ensures Free(s, sep)
  {
    forall i | 0 <= i <= |s|
      ensures !StartsWith(s[i..], sep)
    {
      assert sep[0] in sep && (i < |s| ==> s[i..][0] == s[i] != sep[0]);
    }
  }

  lemma TwoQuestionsPass(dateFormat: string, first: Question)
    requires OptionsOk(first) && !Sensitive(TwoQuestions(dateFormat, first), first.kind)
    ensures IsCompatible(TwoQuestions(dateFormat, first))
    ensures Addressable(TwoQuestions(dateFormat, first), TwoQuestions(dateFormat, first).groups[0])
  {
    var form := TwoQuestions(dateFormat, first);
    var g := form.groups[0];
    ApartIsFree("g", "+");
    assert g.questions[1].kind == FreeText && LastPosition(g.questions) == 1;
    assert forall i | 0 <= i < |g.questions| :: PlacedWell(form, g.questions, i);
    assert GroupPlacedWell(form, g);
    assert forall i | 0 <= i < |form.groups| :: form.groups[i] == g;
  }

  lemma FormatWords()
    ensures IsWord(DATETIME_FORMAT) && !IsWord(WHEN_FORMAT) && WHEN_FORMAT != ""
  {
    assert WHEN_FORMAT[8] == ' ';
  }

  lemma WhenFormPasses()
    ensures var form := WhenForm();
            IsCompatible(form) && Addressable(form, form.groups[0]) && ReadFormat(form, DateTime) == WHEN_FORMAT
  {
    FormatWords();
    OneWord(DATETIME_FORMAT);
    var first := WhenForm().groups[0].questions[0];
    assert !Sensitive(TwoQuestions(WHEN_FORMAT, first), first.kind);
    TwoQuestionsPass(WHEN_FORMAT, first);
  }

  /** It passes the check, and no text that its first question would take can be sent. */
  lemma DatetimeNeverSent(env: Env, v: string)
    requires WordByWord(env, WHEN_FORMAT)
    ensures var form := WhenForm(); var g := form.groups[0];
            && IsCompatible(form)
            && (CastValue(CasterOf(env, form), g.questions[0], v).Some? ==> !Handed(form, g, 0, v))
  {
    var form := WhenForm();
    FormatWords();
    WhenFormPasses();
    if CastValue(CasterOf(env, form), form.groups[0].questions[0], v).Some? {
      DateSentExactly(env, form, form.groups[0], 0, v);
    }
  }

  lemma OneWord(w: string)
    requires IsWord(w)
    ensures Words(w) == [w]
  {
    FirstWord(w, "");
    assert w + "" == w && Words("") == [];
  }

  /** It passes the check, and the option that would be read as the choice cannot be sent. */
  lemma OptionNeverSent(env: Env)
    ensures var form := SideForm(); var g := form.groups[0];
            && IsCompatible(form)
            && CastValue(CasterOf(env, form), g.questions[0], "upper side") == Some("top")
            && !Handed(form, g, 0, "upper side")
  {
    var form := SideForm();
    var g := form.groups[0];
    OptionsDistinct(g.questions[0].choices);
    TwoQuestionsPass("", g.questions[0]);
    OptionSentExactly(env, form, g, 0, 0);
    assert "upper side"[5] == ' ';
  }
}
