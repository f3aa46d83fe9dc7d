/** Printing answers as an SMS text and parsing them back. */
module SmsRoundTrip {
  import opened Common
  import opened Text
  import opened Grouping
  import opened SmsText
  import opened SmsForm
  import opened SmsParser

  /** The answers of a group: for each answered question, in order, its words. */
  type Answers = seq<seq<string>>

  // ---------------------------------------------------------------- positions

  /** How many answered questions stand before a position. */
  function Rank(qs: seq<Question>, i: nat, allowMedia: bool): (r: nat)
    requires i <= |qs|
    ensures r <= i
  {
    if i == 0 then 0 else Rank(qs, i - 1, allowMedia) + if Answered(qs[i - 1], allowMedia) then 1 else 0
  }

  lemma {:induction false} RankGrows(qs: seq<Question>, i: nat, j: nat, allowMedia: bool)
    requires i <= j <= |qs|
    ensures Rank(qs, i, allowMedia) <= Rank(qs, j, allowMedia)
    ensures i < j && Answered(qs[i], allowMedia) ==> Rank(qs, i, allowMedia) < Rank(qs, j, allowMedia)
  {
    if i < j {
      RankGrows(qs, i, j - 1, allowMedia);
    }
  }

  /** Every rank belongs to an answered question. */
  lemma {:induction false} AtRank(qs: seq<Question>, n: nat, r: nat, allowMedia: bool) returns (i: nat)
    requires n <= |qs| && r < Rank(qs, n, allowMedia)
    ensures i < n && Answered(qs[i], allowMedia) && Rank(qs, i, allowMedia) == r
  {
    if r < Rank(qs, n - 1, allowMedia) {
      i := AtRank(qs, n - 1, r, allowMedia);
    } else {
      i := n - 1;
    }
  }

  /** Only answered questions (and, before other than the last, disallowed media) stand before a question. */
  predicate NothingSkippedBefore(qs: seq<Question>, i: nat, allowMedia: bool)
    requires i < |qs|
  {
    forall j | 0 <= j < i :: Answered(qs[j], allowMedia) || (!IsLast(i, qs) && NoMedia(qs[j], allowMedia))
  }

  predicate Aligned(qs: seq<Question>, allowMedia: bool) {
    forall i | 0 <= i < |qs| :: Answered(qs[i], allowMedia) ==> NothingSkippedBefore(qs, i, allowMedia)
  }

  /** Positions before i taken up by questions that are neither answered nor stepped back over. */
  function Lost(qs: seq<Question>, i: nat, allowMedia: bool): nat
    requires i <= |qs|
  {
    if i == 0 then 0
    else
      Lost(qs, i - 1, allowMedia)
      + if Answered(qs[i - 1], allowMedia) || NoMedia(qs[i - 1], allowMedia) then 0 else 1
  }

  lemma {:induction false} PositionsAdd(qs: seq<Question>, i: nat, allowMedia: bool)
    requires i <= |qs|
    ensures Rank(qs, i, allowMedia) + StepBack(qs, i, allowMedia) + Lost(qs, i, allowMedia) == i
    ensures Lost(qs, i, allowMedia) == 0
        <==> forall j | 0 <= j < i :: Answered(qs[j], allowMedia) || NoMedia(qs[j], allowMedia)
    ensures StepBack(qs, i, allowMedia) == 0 <==> forall j | 0 <= j < i :: !NoMedia(qs[j], allowMedia)
  {
    if i > 0 {
      PositionsAdd(qs, i - 1, allowMedia);
    }
  }

  /** The position the code looks at: the question's own for the last one, stepped back over media otherwise. */
  function Looked(qs: seq<Question>, i: nat, allowMedia: bool): nat
    requires i < |qs|
  {
    if IsLast(i, qs) then i else i - StepBack(qs, i, allowMedia)
  }

  lemma LookedIsRank(qs: seq<Question>, i: nat, allowMedia: bool)
    requires i < |qs|
    ensures Looked(qs, i, allowMedia) >= Rank(qs, i, allowMedia)
    ensures Looked(qs, i, allowMedia) == Rank(qs, i, allowMedia) <==> NothingSkippedBefore(qs, i, allowMedia)
  {
    PositionsAdd(qs, i, allowMedia);
    if NothingSkippedBefore(qs, i, allowMedia) {
      if IsLast(i, qs) {
        assert forall j | 0 <= j < i :: !NoMedia(qs[j], allowMedia);
      }
    } else {
      var j :| 0 <= j < i && !(Answered(qs[j], allowMedia) || (!IsLast(i, qs) && NoMedia(qs[j], allowMedia)));
      assert !Answered(qs[j], allowMedia);
    }
  }

  /** Every question but the last is answered with one word. */
  ghost predicate Fits(qs: seq<Question>, answers: Answers, allowMedia: bool) {
    && |answers| == Rank(qs, |qs|, allowMedia)
    && forall i | 0 <= i < |qs| && Answered(qs[i], allowMedia) ::
         Rank(qs, i, allowMedia) < |answers| && (!IsLast(i, qs) ==> |answers[Rank(qs, i, allowMedia)]| == 1)
  }

  // ---------------------------------------------------------------- words of a group

  lemma {:induction false} SinglesFlatten(answers: Answers)
    requires forall k :: 0 <= k < |answers| ==> |answers[k]| == 1
    ensures |Flatten(answers)| == |answers| && forall k :: 0 <= k < |answers| ==> Flatten(answers)[k] == answers[k][0]
  {
    if answers != [] {
      SinglesFlatten(answers[1..]);
    }
  }

  lemma FlattenAt(answers: Answers, r: nat)
    requires r < |answers| && forall k :: 0 <= k < r ==> |answers[k]| == 1
    ensures r <= |Flatten(answers)|
    ensures |answers[r]| == 1 ==> r < |Flatten(answers)| && [Flatten(answers)[r]] == answers[r]
    ensures r + 1 == |answers| ==> Flatten(answers)[r..] == answers[r]
  {
    var before, after := answers[..r], answers[r..];
    assert before + after == answers;
    FlattenAppend(before, after);
    SinglesFlatten(before);
    assert Flatten(after) == answers[r] + Flatten(after[1..]);
    if r + 1 == |answers| {
      assert after[1..] == [] && answers[r] + [] == answers[r];
    }
  }

  lemma LastIsLastAnswered(qs: seq<Question>, i: nat, allowMedia: bool)
    requires i < |qs| && Answered(qs[i], allowMedia) && IsLast(i, qs)
    ensures Rank(qs, i, allowMedia) + 1 == Rank(qs, |qs|, allowMedia)
  {}

  lemma SinglesBefore(qs: seq<Question>, answers: Answers, i: nat, allowMedia: bool)
    requires i < |qs| && Answered(qs[i], allowMedia) && Fits(qs, answers, allowMedia)
    ensures Rank(qs, i, allowMedia) < |answers|
    ensures forall k :: 0 <= k < Rank(qs, i, allowMedia) ==> |answers[k]| == 1
  {
    RankGrows(qs, i, |qs|, allowMedia);
    forall k | 0 <= k < Rank(qs, i, allowMedia) ensures |answers[k]| == 1 {
      var j := AtRank(qs, i, k, allowMedia);
      if IsLast(j, qs) {
        LastIsLastAnswered(qs, j, allowMedia);
        assert false;
      }
    }
  }

  /** A question gets its own answer from the words of its group when nothing is skipped before it. */
  lemma GetsItsAnswer(qs: seq<Question>, answers: Answers, i: nat, allowMedia: bool)
    requires i < |qs| && Answered(qs[i], allowMedia) && Fits(qs, answers, allowMedia)
    requires NothingSkippedBefore(qs, i, allowMedia)
    ensures Rank(qs, i, allowMedia) < |answers|
    ensures RawText(qs, i, Some(Flatten(answers)), allowMedia) == Ok(Join(answers[Rank(qs, i, allowMedia)], " "))
  {
    var r := Rank(qs, i, allowMedia);
    LookedIsRank(qs, i, allowMedia);
    SinglesBefore(qs, answers, i, allowMedia);
    FlattenAt(answers, r);
    if IsLast(i, qs) {
      LastIsLastAnswered(qs, i, allowMedia);
    } else {
      var w := Flatten(answers)[r];
      assert answers[r] == [w] && Join([w], " ") == w;
    }
  }

  /** Numbered answers, one word each. */
  function Numbered(n: nat): Answers { seq(n, k requires 0 <= k < n => [Decimal(k)]) }

  lemma NumberedFits(qs: seq<Question>, allowMedia: bool)
    ensures Fits(qs, Numbered(Rank(qs, |qs|, allowMedia)), allowMedia)
  {
    forall j | 0 <= j < |qs| && Answered(qs[j], allowMedia)
      ensures Rank(qs, j, allowMedia) < Rank(qs, |qs|, allowMedia)
    {
      RankGrows(qs, j, |qs|, allowMedia);
    }
  }

  lemma NumberedWords(n: nat)
    ensures var words := Flatten(Numbered(n)); |words| == n && forall k :: 0 <= k < n ==> words[k] == Decimal(k)
  {
    SinglesFlatten(Numbered(n));
  }

  /** Otherwise it gets another text, or none, from numbered answers. */
  lemma GetsAnother(qs: seq<Question>, i: nat, allowMedia: bool)
    requires i < |qs| && Answered(qs[i], allowMedia) && !NothingSkippedBefore(qs, i, allowMedia)
    ensures var answers := Numbered(Rank(qs, |qs|, allowMedia));
      && Fits(qs, answers, allowMedia) && Rank(qs, i, allowMedia) < |answers|
      && RawText(qs, i, Some(Flatten(answers)), allowMedia) != Ok(Join(answers[Rank(qs, i, allowMedia)], " "))
  {
    var n, r := Rank(qs, |qs|, allowMedia), Rank(qs, i, allowMedia);
    NumberedFits(qs, allowMedia);
    NumberedWords(n);
    LookedIsRank(qs, i, allowMedia);
    assert Join(Numbered(n)[r], " ") == Decimal(r);
    NumberedElsewhere(qs, i, allowMedia, Flatten(Numbered(n)));
  }

  /** At a later position the numbered words have another word, or none. */
  lemma NumberedElsewhere(qs: seq<Question>, i: nat, allowMedia: bool, words: seq<string>)
    requires i < |qs| && Answered(qs[i], allowMedia) && Looked(qs, i, allowMedia) > Rank(qs, i, allowMedia)
    requires |words| == Rank(qs, |qs|, allowMedia) && forall k :: 0 <= k < |words| ==> words[k] == Decimal(k)
    ensures RawText(qs, i, Some(words), allowMedia) != Ok(Decimal(Rank(qs, i, allowMedia)))
  {
    var r, s := Rank(qs, i, allowMedia), Looked(qs, i, allowMedia);
    if IsLast(i, qs) {
      LastIsLastAnswered(qs, i, allowMedia);
      assert i >= |words| ==> (if i <= |words| then words[i..] else []) == [];
      assert Join([], " ") == "";
    } else if s < |words| && Decimal(s) == Decimal(r) {
      DecimalInjective(s, r);
    }
  }

  /** Every fitting set of answers comes back question by question exactly when no skipped question precedes an
      answered one - except disallowed media before a question that is not the last. */
  lemma GroupRoundTripExactly(qs: seq<Question>, allowMedia: bool)
    ensures (forall answers, i :: Fits(qs, answers, allowMedia) && 0 <= i < |qs| && Answered(qs[i], allowMedia) ==>
               Rank(qs, i, allowMedia) < |answers| &&
               RawText(qs, i, Some(Flatten(answers)), allowMedia) == Ok(Join(answers[Rank(qs, i, allowMedia)], " ")))
            <==> Aligned(qs, allowMedia)
  {
    if Aligned(qs, allowMedia) {
      forall answers, i | Fits(qs, answers, allowMedia) && 0 <= i < |qs| && Answered(qs[i], allowMedia)
        ensures Rank(qs, i, allowMedia) < |answers| &&
          RawText(qs, i, Some(Flatten(answers)), allowMedia) == Ok(Join(answers[Rank(qs, i, allowMedia)], " "))
      {
        GetsItsAnswer(qs, answers, i, allowMedia);
      }
    } else {
      var i :| 0 <= i < |qs| && Answered(qs[i], allowMedia) && !NothingSkippedBefore(qs, i, allowMedia);
      GetsAnother(qs, i, allowMedia);
    }
  }

  // ---------------------------------------------------------------- printing

  /** Group ids with their answers, in any order. */
  type Filling = seq<(string, Answers)>

  function Part(entry: (string, Answers)): string { Join([entry.0] + Flatten(entry.1), " ") }

  function Parts(filling: Filling): seq<string> {
    if filling == [] then [] else [Part(filling[0])] + Parts(filling[1..])
  }

  /** A keyword, then for each group the separator, its id and its words. */
  function Print(form: Form, keyword: string, filling: Filling): string {
    keyword + Segments(Parts(filling), SeparatorOf(form))
  }

  predicate GoodWord(w: string, sep: string) { IsWord(w) && Apart(w, sep) }

  ghost predicate GoodEntry(entry: (string, Answers), sep: string) {
    && GoodWord(entry.0, sep)
    && Flatten(entry.1) != [] && forall w :: w in Flatten(entry.1) ==> GoodWord(w, sep)
  }

  /** Distinct group ids, at least one word in each group, and words apart from the separator. */
  ghost predicate Printable(form: Form, filling: Filling) {
    && DistinctKeys(filling)
    && ' ' !in SeparatorOf(form)
    && forall k :: 0 <= k < |filling| ==> GoodEntry(filling[k], SeparatorOf(form))
  }

  function SmsOf(filling: Filling): Sms {
    if filling == [] then [] else [(filling[0].0, Flatten(filling[0].1))] + SmsOf(filling[1..])
  }

  lemma PartReads(entry: (string, Answers), sep: string)
    requires GoodEntry(entry, sep) && ' ' !in sep
    ensures Words(Part(entry)) == [entry.0] + Flatten(entry.1) && Apart(Part(entry), sep)
  {
    var ws := [entry.0] + Flatten(entry.1);
    forall i | 0 <= i < |ws| ensures IsWord(ws[i]) && Apart(ws[i], sep) {
      if i > 0 { assert ws[i] in Flatten(entry.1); }
    }
    WordsOfJoin(ws);
    JoinApart(ws, sep);
  }

  lemma GroupRead(entry: (string, Answers), sep: string, parts: seq<string>, acc: Sms)
    requires GoodEntry(entry, sep) && ' ' !in sep
    requires forall i :: 0 <= i < |acc| ==> acc[i].0 != entry.0
    ensures ReadGroups([Part(entry)] + parts, acc) == ReadGroups(parts, acc + [(entry.0, Flatten(entry.1))])
  {
    PartReads(entry, sep);
    var words := Words(Part(entry));
    assert words[0] == entry.0 && words[1..] == Flatten(entry.1);
    PutNew(acc, entry.0, Flatten(entry.1));
    assert ([Part(entry)] + parts)[1..] == parts;
  }

  ghost predicate NoneRead(acc: Sms, filling: Filling) {
    forall i, k :: 0 <= i < |acc| && 0 <= k < |filling| ==> acc[i].0 != filling[k].0
  }

  lemma FirstIsRead(form: Form, filling: Filling, acc: Sms, words: seq<string>)
    requires Printable(form, filling) && filling != [] && NoneRead(acc, filling)
    ensures Printable(form, filling[1..]) && NoneRead(acc + [(filling[0].0, words)], filling[1..])
  {}

  lemma SmsOfFirst(filling: Filling, acc: Sms)
    requires filling != []
    ensures (acc + [(filling[0].0, Flatten(filling[0].1))]) + SmsOf(filling[1..]) == acc + SmsOf(filling)
  {
    var first := [(filling[0].0, Flatten(filling[0].1))];
    assert (acc + first) + SmsOf(filling[1..]) == acc + (first + SmsOf(filling[1..]));
  }

  lemma {:induction false} GroupsRead(form: Form, filling: Filling, acc: Sms)
    requires Printable(form, filling) && NoneRead(acc, filling)
    ensures ReadGroups(Parts(filling), acc) == Ok(acc + SmsOf(filling))
    decreases |filling|
  {
    if filling == [] {
      assert acc + [] == acc;
    } else {
      var entry := filling[0];
      var acc' := acc + [(entry.0, Flatten(entry.1))];
      FirstIsRead(form, filling, acc, Flatten(entry.1));
      SmsOfFirst(filling, acc);
      GroupRead(entry, SeparatorOf(form), Parts(filling[1..]), acc);
      GroupsRead(form, filling[1..], acc');
    }
  }

  lemma {:induction false} PartsApart(filling: Filling, sep: string)
    requires ' ' !in sep && forall k :: 0 <= k < |filling| ==> GoodEntry(filling[k], sep)
    ensures |Parts(filling)| == |filling| && forall k :: 0 <= k < |filling| ==> Apart(Parts(filling)[k], sep)
  {
    if filling != [] {
      PartReads(filling[0], sep);
      PartsApart(filling[1..], sep);
    }
  }

  lemma {:induction false} SmsGet(filling: Filling, id: string)
    ensures Get(SmsOf(filling), id) == (match Get(filling, id) case None => None case Some(a) => Some(Flatten(a)))
  {
    if filling != [] {
      SmsGet(filling[1..], id);
      assert SmsOf(filling)[1..] == SmsOf(filling[1..]);
    }
  }

  // ---------------------------------------------------------------- the round trip

  /** The texts meant for a group's questions: each answered question its own answer. */
  function MeantTexts(qs: seq<Question>, answers: Answers, allowMedia: bool): (ts: Texts)
    ensures |ts| == |qs|
  {
    seq(|qs|, i requires 0 <= i < |qs| =>
      var r := Rank(qs, i, allowMedia);
      if r < |answers| then Ok(Join(answers[r], " ")) else Err(MissingWord))
  }

  function MeantGroup(g: Group, filling: Filling, allowMedia: bool): Option<Texts> {
    match Get(filling, g.smsField)
    case Some(answers) => if Visited(g, true) then Some(MeantTexts(g.questions, answers, allowMedia)) else None
    case None => if Visited(g, false) then Some(RawTexts(g.questions, None, allowMedia)) else None
  }

  function MeantPlan(form: Form, filling: Filling): (plan: Plan)
    ensures PlanFits(form, plan)
  {
    seq(|form.groups|, i requires 0 <= i < |form.groups| => MeantGroup(form.groups[i], filling, form.allowMedia))
  }

  /** The result a filled form should give: every answered question the value of its own answer. */
  function Expected(env: Env, form: Form, filling: Filling): Result<Parsed, Fault> {
    WalkGroups(env, form, MeantPlan(form, filling), 0, Parsed([], []))
  }

  /** Every filled group has one word for each question but the last, and skips nothing before an answered question. */
  ghost predicate FillingFits(form: Form, filling: Filling) {
    forall g :: g in form.groups && Get(filling, g.smsField).Some? ==>
      Fits(g.questions, Get(filling, g.smsField).value, form.allowMedia) && Aligned(g.questions, form.allowMedia)
  }

  lemma PrintedReads(form: Form, keyword: string, filling: Filling)
    requires Printable(form, filling) && Apart(keyword, SeparatorOf(form))
    ensures ReadGroups(SplitBy(Print(form, keyword, filling), SeparatorOf(form))[1..], []) == Ok(SmsOf(filling))
  {
    PartsApart(filling, SeparatorOf(form));
    SplitSegments(keyword, Parts(filling), SeparatorOf(form));
    assert ([keyword] + Parts(filling))[1..] == Parts(filling);
    GroupsRead(form, filling, []);
    assert [] + SmsOf(filling) == SmsOf(filling);
  }

  /** Parsing printed answers takes for every answered question the text of its own answer. */
  lemma PrintParse(env: Env, form: Form, keyword: string, filling: Filling)
    requires Printable(form, filling) && Apart(keyword, SeparatorOf(form)) && FillingFits(form, filling)
    ensures Parse(env, form, Print(form, keyword, filling)) == Expected(env, form, filling)
  {
    PrintedReads(form, keyword, filling);
    var sms := SmsOf(filling);
    var plan, meant := PlanOf(form, sms), MeantPlan(form, filling);
    forall i | 0 <= i < |plan|
      ensures plan[i].Some? == meant[i].Some?
      ensures plan[i].Some? ==>
          forall k | 0 <= k < |form.groups[i].questions| && Answered(form.groups[i].questions[k], form.allowMedia) ::
            plan[i].value[k] == meant[i].value[k]
    {
      var g := form.groups[i];
      SmsGet(filling, g.smsField);
      if plan[i].Some? && Get(filling, g.smsField).Some? {
        var answers := Get(filling, g.smsField).value;
        forall k | 0 <= k < |g.questions| && Answered(g.questions[k], form.allowMedia)
          ensures plan[i].value[k] == meant[i].value[k]
        {
          GetsItsAnswer(g.questions, answers, k, form.allowMedia);
        }
      }
    }
    SamePlanSameWalk(env, form, plan, meant, 0, Parsed([], []));
  }

  lemma {:induction false} GetFinds<V>(entries: seq<(string, V)>, key: string)
    ensures Get(entries, key).Some? ==> exists k :: 0 <= k < |entries| && entries[k] == (key, Get(entries, key).value)
    ensures Get(entries, key).None? ==> forall k :: 0 <= k < |entries| ==> entries[k].0 != key
  {
    if entries != [] && entries[0].0 != key {
      GetFinds(entries[1..], key);
      if Get(entries, key).Some? {
        var k :| 0 <= k < |entries[1..]| && entries[1..][k] == (key, Get(entries, key).value);
        assert entries[k + 1] == (key, Get(entries, key).value);
      } else {
        forall k | 0 <= k < |entries| ensures entries[k].0 != key {
          if k > 0 { assert entries[k] == entries[1..][k - 1]; }
        }
      }
    } else if entries != [] {
      assert entries[0] == (key, Get(entries, key).value);
    }
  }

  lemma FoundInOther(filling: Filling, other: Filling, id: string)
    requires DistinctKeys(other) && forall e :: e in filling ==> e in other
    ensures Get(filling, id).Some? ==> Get(other, id) == Get(filling, id)
  {
    GetFinds(filling, id);
    if Get(filling, id).Some? {
      var k :| 0 <= k < |filling| && filling[k] == (id, Get(filling, id).value);
      assert filling[k] in other;
      var l :| 0 <= l < |other| && other[l] == filling[k];
      GetAt(other, l);
    }
  }

  /** The order of the groups in the text does not matter. */
  lemma OrderIrrelevant(env: Env, form: Form, keyword: string, filling: Filling, other: Filling)
    requires Printable(form, filling) && Printable(form, other) && Apart(keyword, SeparatorOf(form))
    requires forall e :: e in filling <==> e in other
    ensures Parse(env, form, Print(form, keyword, filling)) == Parse(env, form, Print(form, keyword, other))
  {
    PrintedReads(form, keyword, filling);
    PrintedReads(form, keyword, other);
    var p, p' := PlanOf(form, SmsOf(filling)), PlanOf(form, SmsOf(other));
    forall i | 0 <= i < |p| ensures p[i] == p'[i] {
      var id := form.groups[i].smsField;
      SmsGet(filling, id);
      SmsGet(other, id);
      FoundInOther(filling, other, id);
      FoundInOther(other, filling, id);
    }
    assert p == p';
  }

  // ---------------------------------------------------------------- what an expected result holds

  /** The last question with a name, from a position on, that is not left out. */
  function QuestionNamed(qs: seq<Question>, allowMedia: bool, i: nat, name: string): (r: Option<nat>)
    requires i <= |qs|
    ensures r.Some? ==> i <= r.value < |qs| && !Skipped(qs[r.value], allowMedia) && qs[r.value].name == name
    ensures forall j | i <= j < |qs| && (r.Some? ==> r.value < j) :: Skipped(qs[j], allowMedia) || qs[j].name != name
    decreases |qs| - i
  {
    if i == |qs| then None
    else
      var later := QuestionNamed(qs, allowMedia, i + 1, name);
      if later.Some? then later
      else if !Skipped(qs[i], allowMedia) && qs[i].name == name then Some(i)
      else None
  }

  /** A group's answers: under each name the value of the last question that has it. */
  lemma {:induction false} EntriesAre(c: Caster, qs: seq<Question>, allowMedia: bool, ts: Texts, i: nat, acc: Entries,
      name: string)
    requires i <= |qs| == |ts| && GroupEntries(c, qs, allowMedia, ts, i, acc).Ok?
    ensures var k := QuestionNamed(qs, allowMedia, i, name);
            && (k.Some? ==> QuestionValue(c, qs[k.value], ts[k.value]).Ok?)
            && Get(GroupEntries(c, qs, allowMedia, ts, i, acc).value, name)
               == if k.Some? then Some(QuestionValue(c, qs[k.value], ts[k.value]).value) else Get(acc, name)
    decreases |qs| - i
  {
    if i < |qs| {
      if Skipped(qs[i], allowMedia) {
        EntriesAre(c, qs, allowMedia, ts, i + 1, acc, name);
      } else {
        var v := QuestionValue(c, qs[i], ts[i]).value;
        GetPut(acc, qs[i].name, v, name);
        EntriesAre(c, qs, allowMedia, ts, i + 1, Put(acc, qs[i].name, v), name);
      }
    }
  }

  /** The last planned group with a name, from a position on. */
  function GroupNamed(form: Form, plan: Plan, i: nat, name: string): (r: Option<nat>)
    requires PlanFits(form, plan) && i <= |form.groups|
    ensures r.Some? ==>
              i <= r.value < |form.groups| && plan[r.value].Some? && form.groups[r.value].name == name
    ensures forall j | i <= j < |form.groups| && (r.Some? ==> r.value < j) ::
              plan[j].None? || form.groups[j].name != name
    decreases |form.groups| - i
  {
    if i == |form.groups| then None
    else
      var later := GroupNamed(form, plan, i + 1, name);
      if later.Some? then later
      else if plan[i].Some? && form.groups[i].name == name then Some(i)
      else None
  }

  /** The notes of the planned groups, in order. */
  function NotesTaken(form: Form, plan: Plan, i: nat): seq<string>
    requires PlanFits(form, plan) && i <= |form.groups|
    decreases |form.groups| - i
  {
    if i == |form.groups| then []
    else (if plan[i].Some? then NotesOf(form.groups[i].questions) else []) + NotesTaken(form, plan, i + 1)
  }

  function PlannedEntries(env: Env, form: Form, plan: Plan, i: nat): Result<Entries, Fault>
    requires PlanFits(form, plan) && i < |plan| && plan[i].Some?
  {
    GroupEntries(CasterOf(env, form), form.groups[i].questions, form.allowMedia, plan[i].value, 0, [])
  }

  /** The parsed groups: under each name the answers of the last planned group that has it; and the notes. */
  lemma {:induction false} GroupsAre(env: Env, form: Form, plan: Plan, i: nat, acc: Parsed, name: string)
    requires PlanFits(form, plan) && i <= |form.groups| && WalkGroups(env, form, plan, i, acc).Ok?
    ensures var k := GroupNamed(form, plan, i, name);
            && (k.Some? ==> plan[k.value].Some? && PlannedEntries(env, form, plan, k.value).Ok?)
            && Get(WalkGroups(env, form, plan, i, acc).value.answers, name)
               == if k.Some? then Some(PlannedEntries(env, form, plan, k.value).value) else Get(acc.answers, name)
    ensures WalkGroups(env, form, plan, i, acc).value.notes
            == acc.notes + NotesTaken(form, plan, i)
    decreases |form.groups| - i
  {
    if i == |form.groups| {
      assert acc.notes + [] == acc.notes;
    } else {
      var g, rest := form.groups[i], NotesTaken(form, plan, i + 1);
      if plan[i].None? {
        assert [] + rest == rest;
        GroupsAre(env, form, plan, i + 1, acc, name);
      } else {
        var es := PlannedEntries(env, form, plan, i).value;
        GetPut(acc.answers, g.name, es, name);
        GroupsAre(env, form, plan, i + 1, Parsed(Put(acc.answers, g.name, es), acc.notes + NotesOf(g.questions)),
            name);
        assert (acc.notes + NotesOf(g.questions)) + rest == acc.notes + (NotesOf(g.questions) + rest);
      }
    }
  }

  // ---------------------------------------------------------------- when parsing succeeds

  lemma {:induction false} GroupParsesExactly(c: Caster, qs: seq<Question>, allowMedia: bool, ts: Texts, i: nat,
      acc: Entries)
    requires i <= |qs| == |ts|
    ensures GroupEntries(c, qs, allowMedia, ts, i, acc).Ok?
            <==> forall k | i <= k < |qs| && !Skipped(qs[k], allowMedia) :: QuestionValue(c, qs[k], ts[k]).Ok?
    decreases |qs| - i
  {
    if i < |qs| {
      if Skipped(qs[i], allowMedia) {
        GroupParsesExactly(c, qs, allowMedia, ts, i + 1, acc);
      } else {
        var v := QuestionValue(c, qs[i], ts[i]);
        if v.Ok? {
          GroupParsesExactly(c, qs, allowMedia, ts, i + 1, Put(acc, qs[i].name, v.value));
        }
      }
    }
  }

  predicate GroupParses(env: Env, form: Form, plan: Plan, k: nat)
    requires PlanFits(form, plan) && k < |plan|
  {
    plan[k].Some? ==> PlannedEntries(env, form, plan, k).Ok?
  }

  lemma {:induction false} WalkParsesExactly(env: Env, form: Form, plan: Plan, i: nat, acc: Parsed)
    requires PlanFits(form, plan) && i <= |plan|
    ensures WalkGroups(env, form, plan, i, acc).Ok? <==> forall k | i <= k < |plan| :: GroupParses(env, form, plan, k)
    decreases |plan| - i
  {
    if i < |plan| {
      if plan[i].None? {
        WalkParsesExactly(env, form, plan, i + 1, acc);
      } else {
        var g := form.groups[i];
        var es := GroupEntries(CasterOf(env, form), g.questions, form.allowMedia, plan[i].value, 0, []);
        assert es.Ok? <==> GroupParses(env, form, plan, i);
        if es.Ok? {
          WalkParsesExactly(env, form, plan, i + 1,
              Parsed(Put(acc.answers, g.name, es.value), acc.notes + NotesOf(g.questions)));
        }
      }
    }
  }

  /** The answer of a question can be turned into a value. */
  predicate AnswerAccepted(c: Caster, qs: seq<Question>, answers: Answers, allowMedia: bool, k: nat)
    requires k < |qs|
  {
    var r := Rank(qs, k, allowMedia);
    r < |answers| && CastValue(c, qs[k], Join(answers[r], " ")).Some?
  }

  /** In a filled group every answer is accepted; a group read without being filled has no question for the sender. */
  predicate GroupAccepted(env: Env, form: Form, g: Group, filling: Filling) {
    match Get(filling, g.smsField)
    case Some(answers) =>
      Visited(g, true) ==> forall k | 0 <= k < |g.questions| && Answered(g.questions[k], form.allowMedia) ::
        AnswerAccepted(CasterOf(env, form), g.questions, answers, form.allowMedia, k)
    case None =>
      Visited(g, false) ==> forall k | 0 <= k < |g.questions| :: !Answered(g.questions[k], form.allowMedia)
  }

  lemma GroupAcceptedExactly(env: Env, form: Form, filling: Filling, i: nat)
    requires i < |form.groups|
    ensures GroupParses(env, form, MeantPlan(form, filling), i) <==> GroupAccepted(env, form, form.groups[i], filling)
  {
    var g, plan := form.groups[i], MeantPlan(form, filling);
    if plan[i].Some? {
      var ts := plan[i].value;
      GroupParsesExactly(CasterOf(env, form), g.questions, form.allowMedia, ts, 0, []);
      if answers :| Get(filling, g.smsField) == Some(answers) {
        forall k | 0 <= k < |g.questions| && !Skipped(g.questions[k], form.allowMedia)
          ensures QuestionValue(CasterOf(env, form), g.questions[k], ts[k]).Ok?
                  <==> g.questions[k].kind.Meta?
                       || AnswerAccepted(CasterOf(env, form), g.questions, answers, form.allowMedia, k)
        {
        }
      } else {
        forall k | 0 <= k < |g.questions| && !Skipped(g.questions[k], form.allowMedia)
          ensures QuestionValue(CasterOf(env, form), g.questions[k], ts[k]).Ok? <==> g.questions[k].kind.Meta?
        {
        }
      }
    }
  }

  /** Parsing printed answers succeeds if and only if every group's answers are accepted. */
  lemma ParsesExactly(env: Env, form: Form, keyword: string, filling: Filling)
    requires Printable(form, filling) && Apart(keyword, SeparatorOf(form)) && FillingFits(form, filling)
    ensures Parse(env, form, Print(form, keyword, filling)).Ok?
            <==> forall i | 0 <= i < |form.groups| :: GroupAccepted(env, form, form.groups[i], filling)
  {
    var plan := MeantPlan(form, filling);
    PrintParse(env, form, keyword, filling);
    WalkParsesExactly(env, form, plan, 0, Parsed([], []));
    forall i | 0 <= i < |form.groups|
      ensures GroupParses(env, form, plan, i) <==> GroupAccepted(env, form, form.groups[i], filling)
    {
      GroupAcceptedExactly(env, form, filling, i);
    }
  }

  // ---------------------------------------------------------------- the answers come back

  /** The printed answer of a question. */
  function AnswerTo(form: Form, filling: Filling, i: nat, k: nat): string
    requires i < |form.groups| && k < |form.groups[i].questions| && Get(filling, form.groups[i].smsField).Some?
  {
    var g := form.groups[i];
    var answers, r := Get(filling, g.smsField).value, Rank(g.questions, k, form.allowMedia);
    if r < |answers| then Join(answers[r], " ") else ""
  }

  /** The value a question should have: a meta question its own, any other one that of its printed answer. */
  function ValueMeant(env: Env, form: Form, filling: Filling, i: nat, k: nat): Option<string>
    requires i < |form.groups| && k < |form.groups[i].questions|
  {
    var g := form.groups[i];
    if g.questions[k].kind.Meta? then Some(env.meta(g.questions[k].kind.tag))
    else if Get(filling, g.smsField).Some? then
        CastValue(CasterOf(env, form), g.questions[k], AnswerTo(form, filling, i, k))
    else None
  }

  /** What a parsed SMS should hold under a group's and a question's name. */
  function Meant(env: Env, form: Form, filling: Filling, group: string, question: string): Option<string> {
    match GroupNamed(form, MeantPlan(form, filling), 0, group)
    case None => None
    case Some(i) =>
      match QuestionNamed(form.groups[i].questions, form.allowMedia, 0, question)
      case None => None
      case Some(k) => ValueMeant(env, form, filling, i, k)
  }

  function Reported(parsed: Parsed, group: string, question: string): Option<string> {
    match Get(parsed.answers, group)
    case None => None
    case Some(entries) => Get(entries, question)
  }

  lemma MeantTextIs(env: Env, form: Form, filling: Filling, i: nat, k: nat)
    requires i < |form.groups| && k < |form.groups[i].questions| && MeantPlan(form, filling)[i].Some?
    requires !Skipped(form.groups[i].questions[k], form.allowMedia)
    requires GroupAccepted(env, form, form.groups[i], filling)
    ensures MeantPlan(form, filling)[i].Some?
    ensures var v := QuestionValue(CasterOf(env, form), form.groups[i].questions[k],
        MeantPlan(form, filling)[i].value[k]);
            v.Ok? ==> Some(v.value) == ValueMeant(env, form, filling, i, k)
  {}

  /**
   Whatever answers are printed, one word each before the last of a group: when every group's answers are accepted, the
   text is parsed, and the result holds under each group's and question's name the value of that question's own
   answer, nothing under any other name, and the notes of the groups in order.
   */
  lemma AnswersComeBack(env: Env, form: Form, keyword: string, filling: Filling)
    requires Printable(form, filling) && Apart(keyword, SeparatorOf(form)) && FillingFits(form, filling)
    requires forall i | 0 <= i < |form.groups| :: GroupAccepted(env, form, form.groups[i], filling)
    ensures var parsed := Parse(env, form, Print(form, keyword, filling));
            && parsed.Ok?
            && (forall group, question ::
                Reported(parsed.value, group, question) == Meant(env, form, filling, group, question))
            && (forall group ::
                Get(parsed.value.answers, group).Some? <==> GroupNamed(form, MeantPlan(form, filling), 0, group).Some?)
            && parsed.value.notes == NotesTaken(form, MeantPlan(form, filling), 0)
  {
    ParsesExactly(env, form, keyword, filling);
    PrintParse(env, form, keyword, filling);
    var parsed := Expected(env, form, filling).value;
    forall group, question
      ensures Reported(parsed, group, question) == Meant(env, form, filling, group, question)
    {
      ReportedIsMeant(env, form, filling, group, question);
    }
    forall group
      ensures Get(parsed.answers, group).Some? <==> GroupNamed(form, MeantPlan(form, filling), 0, group).Some?
    {
      GroupsAre(env, form, MeantPlan(form, filling), 0, Parsed([], []), group);
    }
    GroupsAre(env, form, MeantPlan(form, filling), 0, Parsed([], []), "");
    assert [] + NotesTaken(form, MeantPlan(form, filling), 0) == NotesTaken(form, MeantPlan(form, filling), 0);
  }

  lemma ReportedIsMeant(env: Env, form: Form, filling: Filling, group: string, question: string)
    requires Expected(env, form, filling).Ok?
    requires forall i | 0 <= i < |form.groups| :: GroupAccepted(env, form, form.groups[i], filling)
    ensures Reported(Expected(env, form, filling).value, group, question) == Meant(env, form, filling, group, question)
  {
    GroupsAre(env, form, MeantPlan(form, filling), 0, Parsed([], []), group);
    if i: nat :| GroupNamed(form, MeantPlan(form, filling), 0, group) == Some(i) {
      var g, ts := form.groups[i], MeantPlan(form, filling)[i].value;
      EntriesAre(CasterOf(env, form), g.questions, form.allowMedia, ts, 0, [], question);
      if k: nat :| QuestionNamed(g.questions, form.allowMedia, 0, question) == Some(k) {
        MeantTextIs(env, form, filling, i, k);
      }
    }
  }

  /** A question of a filled group, with no later namesake in its group and no later group of the same name. */
  predicate Asked(form: Form, filling: Filling, i: nat, k: nat)
    requires i < |form.groups| && k < |form.groups[i].questions|
  {
    var g := form.groups[i];
    && Get(filling, g.smsField).Some? && Visited(g, true) && Answered(g.questions[k], form.allowMedia)
    && (forall j | k < j < |g.questions| :: g.questions[j].name != g.questions[k].name)
    && (forall j | i < j < |form.groups| :: form.groups[j].name != g.name)
  }

  lemma AskedIsNamed(form: Form, filling: Filling, i: nat, k: nat)
    requires i < |form.groups| && k < |form.groups[i].questions| && Asked(form, filling, i, k)
    ensures GroupNamed(form, MeantPlan(form, filling), 0, form.groups[i].name) == Some(i)
    ensures QuestionNamed(form.groups[i].questions, form.allowMedia, 0, form.groups[i].questions[k].name) == Some(k)
  {
    var g, r := form.groups[i], GroupNamed(form, MeantPlan(form, filling), 0, form.groups[i].name);
    assert MeantPlan(form, filling)[i].Some?;
    var q := QuestionNamed(g.questions, form.allowMedia, 0, g.questions[k].name);
    assert !Skipped(g.questions[k], form.allowMedia);
  }

  lemma AskedIsMeant(env: Env, form: Form, filling: Filling, i: nat, k: nat)
    requires i < |form.groups| && k < |form.groups[i].questions| && Asked(form, filling, i, k)
    requires GroupAccepted(env, form, form.groups[i], filling)
    ensures var g := form.groups[i];
            var v := CastValue(CasterOf(env, form), g.questions[k], AnswerTo(form, filling, i, k));
            v.Some? && Meant(env, form, filling, g.name, g.questions[k].name) == v
  {
    var g := form.groups[i];
    AskedIsNamed(form, filling, i, k);
    assert AnswerAccepted(CasterOf(env, form), g.questions, Get(filling, g.smsField).value, form.allowMedia, k);
  }

  /** Question by question: the answer of each comes back under its group's and its own name. */
  lemma EachAnswerComesBack(env: Env, form: Form, keyword: string, filling: Filling, i: nat, k: nat)
    requires Printable(form, filling) && Apart(keyword, SeparatorOf(form)) && FillingFits(form, filling)
    requires forall i | 0 <= i < |form.groups| :: GroupAccepted(env, form, form.groups[i], filling)
    requires i < |form.groups| && k < |form.groups[i].questions| && Asked(form, filling, i, k)
    ensures var g, parsed := form.groups[i], Parse(env, form, Print(form, keyword, filling));
            var v := CastValue(CasterOf(env, form), g.questions[k], AnswerTo(form, filling, i, k));
            parsed.Ok? && v.Some? && Reported(parsed.value, g.name, g.questions[k].name) == v
  {
    var g := form.groups[i];
    AnswersComeBack(env, form, keyword, filling);
    AskedIsMeant(env, form, filling, i, k);
    assert Reported(Parse(env, form, Print(form, keyword, filling)).value, g.name, g.questions[k].name)
           == Meant(env, form, filling, g.name, g.questions[k].name);
  }

  // ---------------------------------------------------------------- text answers

  /** The sender is asked for texts only, and a required one is not empty. */
  predicate TextAnswer(qs: seq<Question>, answers: Answers, allowMedia: bool, k: nat)
    requires k < |qs|
  {
    var r := Rank(qs, k, allowMedia);
    qs[k].kind.FreeText? && (qs[k].required ==> r < |answers| && answers[r] != [])
  }

  predicate TextGroup(form: Form, g: Group, filling: Filling) {
    match Get(filling, g.smsField)
    case Some(answers) =>
      forall k | 0 <= k < |g.questions| && Answered(g.questions[k], form.allowMedia) ::
        TextAnswer(g.questions, answers, form.allowMedia, k)
    case None =>
      Visited(g, false) ==> forall k | 0 <= k < |g.questions| :: !Answered(g.questions[k], form.allowMedia)
  }

  /** Words make a text that is not empty. */
  lemma AnswerNotEmpty(form: Form, filling: Filling, id: string, r: nat)
    requires Printable(form, filling) && Get(filling, id).Some? && r < |Get(filling, id).value|
    requires Get(filling, id).value[r] != []
    ensures Join(Get(filling, id).value[r], " ") != ""
  {
    var answers := Get(filling, id).value;
    GetFinds(filling, id);
    var n :| 0 <= n < |filling| && filling[n] == (id, answers);
    assert GoodEntry(filling[n], SeparatorOf(form));
    FlattenHas(answers, r);
    assert answers[r][0] in Flatten(answers);
    assert GoodWord(answers[r][0], SeparatorOf(form));
  }

  lemma TextGroupAccepted(env: Env, form: Form, g: Group, filling: Filling)
    requires Printable(form, filling) && FillingFits(form, filling) && g in form.groups && TextGroup(form, g, filling)
    ensures GroupAccepted(env, form, g, filling)
  {
    if answers :| Get(filling, g.smsField) == Some(answers) {
      assert Fits(g.questions, answers, form.allowMedia);
      forall k | 0 <= k < |g.questions| && Answered(g.questions[k], form.allowMedia)
        ensures AnswerAccepted(CasterOf(env, form), g.questions, answers, form.allowMedia, k)
      {
        assert TextAnswer(g.questions, answers, form.allowMedia, k);
        if g.questions[k].required {
          AnswerNotEmpty(form, filling, g.smsField, Rank(g.questions, k, form.allowMedia));
        }
      }
    }
  }

  /** Free texts are accepted without further conditions: they are parsed, and each comes back as it was sent. */
  lemma TextsComeBack(env: Env, form: Form, keyword: string, filling: Filling)
    requires Printable(form, filling) && Apart(keyword, SeparatorOf(form)) && FillingFits(form, filling)
    requires forall i | 0 <= i < |form.groups| :: TextGroup(form, form.groups[i], filling)
    ensures var parsed := Parse(env, form, Print(form, keyword, filling));
            && parsed.Ok?
            && forall i, k | 0 <= i < |form.groups| && 0 <= k < |form.groups[i].questions| ::
                Asked(form, filling, i, k) ==>
                 Reported(parsed.value, form.groups[i].name, form.groups[i].questions[k].name)
                 == Some(AnswerTo(form, filling, i, k))
  {
    forall i | 0 <= i < |form.groups|
      ensures GroupAccepted(env, form, form.groups[i], filling)
    {
      TextGroupAccepted(env, form, form.groups[i], filling);
    }
    AnswersComeBack(env, form, keyword, filling);
    forall i, k | 0 <= i < |form.groups| && 0 <= k < |form.groups[i].questions| && Asked(form, filling, i, k)
      ensures Reported(Parse(env, form, Print(form, keyword, filling)).value, form.groups[i].name,
          form.groups[i].questions[k].name)
              == Some(AnswerTo(form, filling, i, k))
    {
      EachAnswerComesBack(env, form, keyword, filling, i, k);
      assert TextAnswer(form.groups[i].questions, Get(filling, form.groups[i].smsField).value, form.allowMedia, k);
    }
  }
}
