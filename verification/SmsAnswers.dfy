/**
 What an SMS text means for a form, question by question, whatever it says: which texts are parsed, what each question's
 value is, and which notes are answered (parse_sms_text in onadata/apps/sms_support/parser.py). The statements name
 words, positions, kinds and options only.
 */
module SmsAnswers {
  import opened Common
  import opened Text
  import opened Grouping
  import opened Positions
  import opened SmsText
  import opened SmsForm
  import opened SmsParser
  import opened SmsRoundTrip

  // ---------------------------------------------------------------- what the text says

  function PartsOf(form: Form, text: string): seq<string> {
    SplitBy(text, if form.separator == "" then "+" else form.separator)[1..]
  }

  predicate Begins(part: string, id: string) {
    Words(part) != [] && Words(part)[0] == id
  }

  /** The last part that begins with a group's id has these words after it. */
  ghost predicate Sent(parts: seq<string>, id: string, words: seq<string>) {
    exists p | 0 <= p < |parts| :: Words(parts[p]) == [id] + words && forall l | p < l < |parts| ::
        !Begins(parts[l], id)
  }

  ghost predicate Named(parts: seq<string>, id: string) {
    exists p | 0 <= p < |parts| :: Begins(parts[p], id)
  }

  /** A group's words are those after its id, where the id stands for the last time. */
  lemma {:induction false} GroupsSent(parts: seq<string>, acc: Sms, id: string)
    ensures ReadGroups(parts, acc) == Err(Syntax) || ReadGroups(parts, acc).Ok?
    ensures ReadGroups(parts, acc).Ok? <==> forall p | 0 <= p < |parts| :: |Words(parts[p])| >= 2
    ensures ReadGroups(parts, acc).Ok? ==>
              match Get(ReadGroups(parts, acc).value, id)
              case Some(words) => Sent(parts, id, words) || (!Named(parts, id) && Get(acc, id) == Some(words))
              case None => !Named(parts, id) && Get(acc, id) == None
    decreases |parts|
  {
    if parts != [] && |Words(parts[0])| >= 2 {
      var words, rest := Words(parts[0]), parts[1..];
      var acc' := Put(acc, words[0], words[1..]);
      GetPut(acc, words[0], words[1..], id);
      GroupsSent(rest, acc', id);
      assert forall p | 0 <= p < |rest| :: rest[p] == parts[p + 1];
      assert (forall p | 0 <= p < |parts| :: |Words(parts[p])| >= 2)
          <==> forall p | 0 <= p < |rest| :: |Words(rest[p])| >= 2 by {
        assert forall p | 0 < p < |parts| :: parts[p] == rest[p - 1];
      }
      if ReadGroups(parts, acc).Ok? {
        NamedStep(parts, id);
        SentStep(parts, id);
      }
    }
  }

  lemma NamedStep(parts: seq<string>, id: string)
    requires parts != []
    ensures Named(parts, id) <==> Begins(parts[0], id) || Named(parts[1..], id)
  {
    if p :| 0 <= p < |parts| && Begins(parts[p], id) {
      assert p > 0 ==> parts[1..][p - 1] == parts[p];
    }
    if p :| 0 <= p < |parts[1..]| && Begins(parts[1..][p], id) {
      assert parts[1..][p] == parts[p + 1];
    }
  }

  lemma SentStep(parts: seq<string>, id: string)
    requires parts != []
    ensures forall words :: Sent(parts[1..], id, words) ==> Sent(parts, id, words)
    ensures forall words :: Words(parts[0]) == [id] + words && !Named(parts[1..], id) ==> Sent(parts, id, words)
    ensures Begins(parts[0], id) ==> Words(parts[0]) == [id] + Words(parts[0])[1..]
  {
    var rest := parts[1..];
    forall words | Sent(rest, id, words)
      ensures Sent(parts, id, words)
    {
      var p :| 0 <= p < |rest| && Words(rest[p]) == [id] + words && forall l | p < l < |rest| :: !Begins(rest[l], id);
      forall l | p + 1 < l < |parts|
        ensures !Begins(parts[l], id)
      {
        assert parts[l] == rest[l - 1];
      }
      assert Words(parts[p + 1]) == [id] + words;
    }
    forall words | Words(parts[0]) == [id] + words && !Named(rest, id)
      ensures Sent(parts, id, words)
    {
      forall l | 0 < l < |parts|
        ensures !Begins(parts[l], id)
      {
        assert parts[l] == rest[l - 1];
      }
    }
  }

  lemma SentIsNamed(parts: seq<string>, id: string, words: seq<string>)
    requires Sent(parts, id, words)
    ensures Named(parts, id)
    ensures forall other :: Sent(parts, id, other) ==> other == words
  {
    var p :| 0 <= p < |parts| && Words(parts[p]) == [id] + words && forall l | p < l < |parts| :: !Begins(parts[l], id);
    assert Begins(parts[p], id);
    forall other | Sent(parts, id, other)
      ensures other == words
    {
      var q :| 0 <= q < |parts| && Words(parts[q]) == [id] + other && forall l | q < l < |parts| ::
          !Begins(parts[l], id);
      assert Begins(parts[q], id) && p == q;
      assert words == Words(parts[p])[1..] && other == Words(parts[p])[1..];
    }
  }

  lemma SmsIsSent(parts: seq<string>, id: string)
    requires ReadGroups(parts, []).Ok?
    ensures Get(ReadGroups(parts, []).value, id).Some? <==> Named(parts, id)
    ensures forall words :: Get(ReadGroups(parts, []).value, id) == Some(words) <==> Sent(parts, id, words)
  {
    GroupsSent(parts, [], id);
    forall words
      ensures Get(ReadGroups(parts, []).value, id) == Some(words) <==> Sent(parts, id, words)
    {
      if Sent(parts, id, words) {
        SentIsNamed(parts, id, words);
      }
    }
    if Get(ReadGroups(parts, []).value, id).Some? {
      SentIsNamed(parts, id, Get(ReadGroups(parts, []).value, id).value);
    }
  }

  // ---------------------------------------------------------------- what a question gets

  /** Answered by the sender. */
  predicate ForSender(q: Question, allowMedia: bool) {
    match q.kind
    case Calculate | Note | Meta(_) => false
    case Media(_) => allowMedia
    case _ => true
  }

  /** Nothing comes after the question but, perhaps, one note. */
  predicate Final(qs: seq<Question>, i: nat)
    requires i < |qs|
  {
    |qs| == i + 1 || (|qs| == i + 2 && qs[i + 1].kind == Note)
  }

  ghost function MediaBefore(qs: seq<Question>, i: nat): set<nat>
    requires i <= |qs|
  {
    set j: nat | j < i && qs[j].kind.Media?
  }

  lemma {:induction false} SteppedBack(qs: seq<Question>, i: nat, allowMedia: bool)
    requires i <= |qs|
    ensures StepBack(qs, i, allowMedia) == if allowMedia then 0 else |MediaBefore(qs, i)|
  {
    if i == 0 {
      assert MediaBefore(qs, 0) == {};
    } else {
      SteppedBack(qs, i - 1, allowMedia);
      assert MediaBefore(qs, i) == MediaBefore(qs, i - 1) + if qs[i - 1].kind.Media? then {i - 1} else {};
    }
  }

  /** The final question gets all words from its position on, any other one the word at its position, not counting
      media before it that are not allowed. */
  ghost predicate Gets(qs: seq<Question>, i: nat, allowMedia: bool, words: seq<string>, text: string)
    requires i < |qs|
  {
    if Final(qs, i) then text == Join(words[if i < |words| then i else |words|..], " ")
    else
      var n := if allowMedia then i else i - |MediaBefore(qs, i)|;
      0 <= n < |words| && text == words[n]
  }

  lemma GetsRawText(qs: seq<Question>, i: nat, allowMedia: bool, words: seq<string>, text: string)
    requires i < |qs|
    ensures RawText(qs, i, Some(words), allowMedia) == Ok(text) <==> Gets(qs, i, allowMedia, words, text)
  {
    SteppedBack(qs, i, allowMedia);
    assert i >= |words| ==> words[|words|..] == [];
  }

  /** The values are those of the choices with these options, word by word. */
  ghost predicate Picks(choices: seq<Choice>, words: seq<string>, values: seq<string>) {
    exists ps: seq<(nat, nat)> ::
      && Lists(ps, (w: nat, k: nat) => w < |words| && k < |choices| && choices[k].option == Some(words[w]))
      && |values| == |ps|
      && forall a | 0 <= a < |ps| :: ps[a].1 < |choices| && values[a] == choices[ps[a].1].name
  }

  /** The values of the picked choices, with spaces between them. */
  ghost predicate PickedText(choices: seq<Choice>, words: seq<string>, value: string) {
    exists values :: Picks(choices, words, values) && value == Join(values, " ")
  }

  /** The value a text has for a question. */
  ghost predicate Reads(env: Env, form: Form, q: Question, text: string, value: string) {
    && (q.required ==> text != "")
    && match q.kind
       case FreeText | Barcode => value == text
       case SelectOne => exists k | 0 <= k < |q.choices| ::
           && q.choices[k] == Choice(value, Some(text))
           && forall l | 0 <= l < k :: q.choices[l].option != Some(text)
       case SelectAll => PickedText(q.choices, Words(text), value)
       case Date => env.strptime(if form.dateFormat == "" then "%Y-%m-%d" else form.dateFormat, text) == Some(value)
       case DateTime =>
         env.strptime(if form.dateFormat == "" then "%Y-%m-%d-%H:%M" else form.dateFormat, text) == Some(value)
       case _ => env.cast(q.kind, text) == Some(value)
  }

  lemma {:induction false} FirstChoice(choices: seq<Choice>, option: string)
    ensures match ChoiceNamed(choices, option)
            case Some(name) => exists k | 0 <= k < |choices| ::
              choices[k] == Choice(name, Some(option)) && forall l | 0 <= l < k :: choices[l].option != Some(option)
            case None => forall k | 0 <= k < |choices| :: choices[k].option != Some(option)
  {
    if choices != [] {
      if choices[0].option == Some(option) {
        assert choices[0] == Choice(choices[0].name, Some(option));
      } else {
        var rest := choices[1..];
        FirstChoice(rest, option);
        assert forall l | 0 < l < |choices| :: choices[l] == rest[l - 1];
        if name :| ChoiceNamed(rest, option) == Some(name) {
          var k :| 0 <= k < |rest| && rest[k] == Choice(name, Some(option))
              && forall l | 0 <= l < k :: rest[l].option != Some(option);
          assert choices[k + 1] == Choice(name, Some(option));
        }
      }
    }
  }

  ghost function PickHolds(choices: seq<Choice>, words: seq<string>): (nat, nat) -> bool {
    (w: nat, k: nat) => w < |words| && k < |choices| && choices[k].option == Some(words[w])
  }

  ghost function PickLabel(choices: seq<Choice>): (nat, nat) -> string {
    (w: nat, k: nat) => if k < |choices| then choices[k].name else ""
  }

  lemma {:induction false} ChoicesAreRow(choices: seq<Choice>, words: seq<string>, x: nat, y: nat)
    requires x < |words| && y <= |choices|
    ensures ChoicesNamed(choices[y..], words[x])
            == Labels(Row(PickHolds(choices, words), x, y, |choices|), PickLabel(choices))
    decreases |choices| - y
  {
    if y < |choices| {
      ChoicesAreRow(choices, words, x, y + 1);
      ChoicesStep(choices, y, words[x]);
      RowStep(PickHolds(choices, words), x, y, |choices|, PickLabel(choices));
    }
  }

  lemma ChoicesStep(choices: seq<Choice>, y: nat, option: string)
    requires y < |choices|
    ensures ChoicesNamed(choices[y..], option)
            == (if choices[y].option == Some(option) then [choices[y].name] else [])
               + ChoicesNamed(choices[y + 1..], option)
  {
    assert choices[y..][1..] == choices[y + 1..];
  }

  lemma {:induction false} NamedAreRows(choices: seq<Choice>, words: seq<string>, x: nat)
    requires x <= |words|
    ensures AllNamed(choices, words[x..])
            == Labels(Rows(PickHolds(choices, words), x, |words|, _ => |choices|), PickLabel(choices))
    decreases |words| - x
  {
    if x < |words| {
      NamedAreRows(choices, words, x + 1);
      ChoicesAreRow(choices, words, x, 0);
      assert words[x..][1..] == words[x + 1..] && choices[0..] == choices;
      LabelsAppend(Row(PickHolds(choices, words), x, 0, |choices|),
          Rows(PickHolds(choices, words), x + 1, |words|, _ => |choices|), PickLabel(choices));
    }
  }

  lemma NamedArePicks(choices: seq<Choice>, words: seq<string>)
    ensures Picks(choices, words, AllNamed(choices, words))
  {
    NamedAreRows(choices, words, 0);
    assert words[0..] == words;
    var ps := Rows(PickHolds(choices, words), 0, |words|, _ => |choices|);
    assert Lists(ps, PickHolds(choices, words));
    assert Lists(ps, (w: nat, k: nat) => w < |words| && k < |choices| && choices[k].option == Some(words[w]));
    forall a | 0 <= a < |ps|
      ensures ps[a].1 < |choices| && AllNamed(choices, words)[a] == choices[ps[a].1].name
    {
      assert (ps[a].0, ps[a].1) in ps;
    }
  }

  lemma SelectOneReads(env: Env, form: Form, q: Question, text: string)
    requires q.kind.SelectOne?
    ensures match CastValue(CasterOf(env, form), q, text)
            case Some(value) => Reads(env, form, q, text, value)
            case None => forall value :: !Reads(env, form, q, text, value)
  {
    FirstChoice(q.choices, text);
  }

  lemma NamedArePicked(choices: seq<Choice>, words: seq<string>)
    ensures PickedText(choices, words, Join(AllNamed(choices, words), " "))
  {
    NamedArePicks(choices, words);
  }

  lemma PickedReads(env: Env, form: Form, q: Question, text: string, value: string)
    requires q.kind.SelectAll?
    ensures Reads(env, form, q, text, value) <==>
              (q.required ==> text != "") && PickedText(q.choices, Words(text), value)
  {}

  lemma SelectAllReads(env: Env, form: Form, q: Question, text: string, value: string)
    requires q.kind.SelectAll? && CastValue(CasterOf(env, form), q, text) == Some(value)
    ensures Reads(env, form, q, text, value)
  {
    NamedArePicked(q.choices, Words(text));
    PickedReads(env, form, q, text, value);
  }

  lemma CastReads(env: Env, form: Form, q: Question, text: string)
    ensures match CastValue(CasterOf(env, form), q, text)
            case Some(value) => Reads(env, form, q, text, value)
            case None => forall value :: !Reads(env, form, q, text, value)
  {
    if q.kind.SelectOne? {
      SelectOneReads(env, form, q, text);
    } else if q.kind.SelectAll? {
      if value :| CastValue(CasterOf(env, form), q, text) == Some(value) {
        SelectAllReads(env, form, q, text, value);
      }
    }
  }

  // ---------------------------------------------------------------- any text

  /** The parser goes into a group whose id the text names, or begins with "meta". */
  ghost predicate Entered(g: Group, parts: seq<string>) {
    g.isGroup && g.smsField != "" && (Named(parts, g.smsField) || "meta" <= g.smsField)
  }

  /** The text gives a question of the sender's a value. */
  ghost predicate Given(env: Env, form: Form, g: Group, parts: seq<string>, k: nat, value: string)
    requires k < |g.questions|
  {
    exists words, text ::
      && Sent(parts, g.smsField, words)
      && Gets(g.questions, k, form.allowMedia, words, text)
      && Reads(env, form, g.questions[k], text, value)
  }

  lemma QuestionGiven(env: Env, form: Form, g: Group, parts: seq<string>, k: nat)
    requires ReadGroups(parts, []).Ok? && k < |g.questions| && ForSender(g.questions[k], form.allowMedia)
    ensures var answers := Get(ReadGroups(parts, []).value, g.smsField);
            var v := QuestionValue(CasterOf(env, form), g.questions[k],
                RawText(g.questions, k, answers, form.allowMedia));
            && (v.Ok? ==> Given(env, form, g, parts, k, v.value))
            && (v.Err? ==> forall value :: !Given(env, form, g, parts, k, value))
  {
    var qs, answers := g.questions, Get(ReadGroups(parts, []).value, g.smsField);
    SmsIsSent(parts, g.smsField);
    if words :| answers == Some(words) {
      assert Sent(parts, g.smsField, words);
      SentIsNamed(parts, g.smsField, words);
      var raw := RawText(qs, k, answers, form.allowMedia);
      forall text
        ensures raw == Ok(text) <==> Gets(qs, k, form.allowMedia, words, text)
      {
        GetsRawText(qs, k, form.allowMedia, words, text);
      }
      if text :| raw == Ok(text) {
        CastReads(env, form, qs[k], text);
      }
    }
  }

  lemma EnteredIsPlanned(form: Form, parts: seq<string>, i: nat)
    requires ReadGroups(parts, []).Ok? && i < |form.groups|
    ensures PlanOf(form, ReadGroups(parts, []).value)[i].Some? <==> Entered(form.groups[i], parts)
  {
    SmsIsSent(parts, form.groups[i].smsField);
  }

  lemma SenderOrMeta(q: Question, allowMedia: bool)
    ensures !Skipped(q, allowMedia) <==> ForSender(q, allowMedia) || q.kind.Meta?
    ensures !(ForSender(q, allowMedia) && q.kind.Meta?)
  {}

  ghost predicate AllGiven(env: Env, form: Form, g: Group, parts: seq<string>) {
    forall k | 0 <= k < |g.questions| :: ForSender(g.questions[k], form.allowMedia) ==>
      exists value :: Given(env, form, g, parts, k, value)
  }

  lemma GroupGiven(env: Env, form: Form, parts: seq<string>, i: nat)
    requires ReadGroups(parts, []).Ok? && i < |form.groups|
    ensures var plan := PlanOf(form, ReadGroups(parts, []).value);
            GroupParses(env, form, plan, i)
            <==> (Entered(form.groups[i], parts) ==> AllGiven(env, form, form.groups[i], parts))
  {
    var g, plan := form.groups[i], PlanOf(form, ReadGroups(parts, []).value);
    EnteredIsPlanned(form, parts, i);
    if plan[i].Some? {
      GroupParsesExactly(CasterOf(env, form), g.questions, form.allowMedia, plan[i].value, 0, []);
      forall k | 0 <= k < |g.questions|
        ensures !Skipped(g.questions[k], form.allowMedia) <==>
                ForSender(g.questions[k], form.allowMedia) || g.questions[k].kind.Meta?
        ensures ForSender(g.questions[k], form.allowMedia) ==>
                (QuestionValue(CasterOf(env, form), g.questions[k], plan[i].value[k]).Ok?
                 <==> exists value :: Given(env, form, g, parts, k, value))
      {
        SenderOrMeta(g.questions[k], form.allowMedia);
        if ForSender(g.questions[k], form.allowMedia) {
          QuestionGiven(env, form, g, parts, k);
        }
      }
    }
  }

  /** Whatever a text says, it is parsed if and only if each of its parts has two words at least, and gives a value to
      every question that the groups gone into ask of the sender. */
  lemma AnyTextParses(env: Env, form: Form, text: string)
    ensures var parts := PartsOf(form, text);
            Parse(env, form, text).Ok? <==>
              && (forall p | 0 <= p < |parts| :: |Words(parts[p])| >= 2)
              && forall i | 0 <= i < |form.groups| ::
                  Entered(form.groups[i], parts) ==> AllGiven(env, form, form.groups[i], parts)
  {
    var parts := PartsOf(form, text);
    GroupsSent(parts, [], "");
    if ReadGroups(parts, []).Ok? {
      WalkParsesExactly(env, form, PlanOf(form, ReadGroups(parts, []).value), 0, Parsed([], []));
      forall i | 0 <= i < |form.groups|
        ensures GroupParses(env, form, PlanOf(form, ReadGroups(parts, []).value), i)
                <==> (Entered(form.groups[i], parts) ==> AllGiven(env, form, form.groups[i], parts))
      {
        GroupGiven(env, form, parts, i);
      }
    }
  }

  // ---------------------------------------------------------------- what is reported

  /** The last group of a name that is gone into. */
  ghost predicate LastGroup(form: Form, parts: seq<string>, name: string, i: nat) {
    && i < |form.groups| && form.groups[i].name == name && Entered(form.groups[i], parts)
    && forall j | i < j < |form.groups| :: form.groups[j].name == name ==> !Entered(form.groups[j], parts)
  }

  /** The last question of a name that has a value. */
  ghost predicate LastQuestion(qs: seq<Question>, allowMedia: bool, name: string, k: nat) {
    && k < |qs| && qs[k].name == name && (ForSender(qs[k], allowMedia) || qs[k].kind.Meta?)
    && forall j | k < j < |qs| :: qs[j].name == name ==> !ForSender(qs[j], allowMedia) && !qs[j].kind.Meta?
  }

  /** A meta question has its own value, any other one what the text gives it. */
  ghost predicate HasValue(env: Env, form: Form, g: Group, parts: seq<string>, k: nat, value: string)
    requires k < |g.questions|
  {
    if g.questions[k].kind.Meta? then value == env.meta(g.questions[k].kind.tag)
    else Given(env, form, g, parts, k, value)
  }

  lemma LastGroupIsNamed(form: Form, parts: seq<string>, name: string)
    requires ReadGroups(parts, []).Ok?
    ensures forall i: nat :: GroupNamed(form, PlanOf(form, ReadGroups(parts, []).value), 0, name) == Some(i)
                             <==> LastGroup(form, parts, name, i)
  {
    var plan := PlanOf(form, ReadGroups(parts, []).value);
    forall i | 0 <= i < |form.groups|
      ensures plan[i].Some? <==> Entered(form.groups[i], parts)
    {
      EnteredIsPlanned(form, parts, i);
    }
  }

  lemma LastQuestionIsNamed(qs: seq<Question>, allowMedia: bool, name: string)
    ensures forall k: nat ::
              QuestionNamed(qs, allowMedia, 0, name) == Some(k) <==> LastQuestion(qs, allowMedia, name, k)
  {
    forall k | 0 <= k < |qs|
      ensures !Skipped(qs[k], allowMedia) <==> ForSender(qs[k], allowMedia) || qs[k].kind.Meta?
    {
      SenderOrMeta(qs[k], allowMedia);
    }
  }

  /** Under a group's and a question's name stands the value of the last such question of the last such group, and
      nothing if there is none. */
  lemma AnyTextAnswers(env: Env, form: Form, text: string, group: string, question: string)
    requires Parse(env, form, text).Ok?
    ensures var reported, parts := Reported(Parse(env, form, text).value, group, question), PartsOf(form, text);
            && (forall i: nat, k: nat ::
                LastGroup(form, parts, group, i) && LastQuestion(form.groups[i].questions, form.allowMedia, question, k)
                ==> reported.Some? && HasValue(env, form, form.groups[i], parts, k, reported.value))
            && (reported.Some? ==> exists i: nat, k: nat ::
                LastGroup(form, parts, group, i)
                    && LastQuestion(form.groups[i].questions, form.allowMedia, question, k))
  {
    var parts, reported := PartsOf(form, text), Reported(Parse(env, form, text).value, group, question);
    var plan := PlanOf(form, ReadGroups(parts, []).value);
    GroupsAre(env, form, plan, 0, Parsed([], []), group);
    LastGroupIsNamed(form, parts, group);
    if i: nat :| GroupNamed(form, plan, 0, group) == Some(i) {
      var g := form.groups[i];
      assert LastGroup(form, parts, group, i);
      EntriesAre(CasterOf(env, form), g.questions, form.allowMedia, plan[i].value, 0, [], question);
      LastQuestionIsNamed(g.questions, form.allowMedia, question);
      if k: nat :| QuestionNamed(g.questions, form.allowMedia, 0, question) == Some(k) {
        assert LastQuestion(g.questions, form.allowMedia, question, k);
        if !g.questions[k].kind.Meta? {
          QuestionGiven(env, form, g, parts, k);
        }
      }
    }
  }

  // ---------------------------------------------------------------- notes

  ghost function NoteHolds(form: Form, parts: seq<string>): (nat, nat) -> bool {
    (i: nat, k: nat) =>
      && i < |form.groups| && k < |form.groups[i].questions| && Entered(form.groups[i], parts)
      && form.groups[i].questions[k].kind == Note && !form.groups[i].questions[k].constrained
  }

  ghost function Caption(form: Form): (nat, nat) -> string {
    (i: nat, k: nat) =>
      if i < |form.groups| && k < |form.groups[i].questions| then form.groups[i].questions[k].caption else ""
  }

  ghost function UpTo(qs: seq<Question>): nat -> seq<string> {
    (k: nat) => if k <= |qs| then NotesBefore(qs, k) else []
  }

  lemma UpToNext(form: Form, parts: seq<string>, i: nat, k: nat)
    requires i < |form.groups| && Entered(form.groups[i], parts) && k < |form.groups[i].questions|
    ensures var qs := form.groups[i].questions;
            UpTo(qs)(k + 1) == UpTo(qs)(k) + if NoteHolds(form, parts)(i, k) then [Caption(form)(i, k)] else []
  {}

  lemma NotesAreRow(form: Form, parts: seq<string>, i: nat)
    requires i < |form.groups| && Entered(form.groups[i], parts)
    ensures var qs := form.groups[i].questions;
            NotesOf(qs) == Labels(Row(NoteHolds(form, parts), i, 0, |qs|), Caption(form))
  {
    var qs := form.groups[i].questions;
    forall k: nat | k < |qs|
      ensures UpTo(qs)(k + 1) == UpTo(qs)(k) + if NoteHolds(form, parts)(i, k) then [Caption(form)(i, k)] else []
    {
      UpToNext(form, parts, i, k);
    }
    RowGrown(NoteHolds(form, parts), i, |qs|, Caption(form), UpTo(qs));
  }

  ghost function Lengths(form: Form): nat -> nat {
    (i: nat) => if i < |form.groups| then |form.groups[i].questions| else 0
  }

  lemma {:induction false} NotesAreRows(form: Form, parts: seq<string>, i: nat)
    requires ReadGroups(parts, []).Ok? && i <= |form.groups|
    ensures NotesTaken(form, PlanOf(form, ReadGroups(parts, []).value), i)
            == Labels(Rows(NoteHolds(form, parts), i, |form.groups|, Lengths(form)), Caption(form))
    decreases |form.groups| - i
  {
    if i < |form.groups| {
      var holds, n := NoteHolds(form, parts), |form.groups[i].questions|;
      EnteredIsPlanned(form, parts, i);
      NotesAreRows(form, parts, i + 1);
      LabelsAppend(Row(holds, i, 0, n), Rows(holds, i + 1, |form.groups|, Lengths(form)), Caption(form));
      if Entered(form.groups[i], parts) {
        NotesAreRow(form, parts, i);
      } else {
        NoRow(holds, i, 0, n);
      }
    }
  }

  /** The captions of the unconstrained notes of the groups gone into, each once and in order. */
  ghost predicate NotesListed(form: Form, parts: seq<string>, notes: seq<string>) {
    exists ps: seq<(nat, nat)> ::
      && Lists(ps, NoteHolds(form, parts))
      && |notes| == |ps|
      && forall a | 0 <= a < |ps| ::
        ps[a].0 < |form.groups| && ps[a].1 < |form.groups[ps[a].0].questions|
        && notes[a] == form.groups[ps[a].0].questions[ps[a].1].caption
  }

  lemma RowsAreListed(form: Form, parts: seq<string>)
    ensures NotesListed(form, parts,
              Labels(Rows(NoteHolds(form, parts), 0, |form.groups|, Lengths(form)), Caption(form)))
  {
    var ps := Rows(NoteHolds(form, parts), 0, |form.groups|, Lengths(form));
    assert Lists(ps, NoteHolds(form, parts));
    forall a | 0 <= a < |ps|
      ensures ps[a].0 < |form.groups| && ps[a].1 < |form.groups[ps[a].0].questions|
    {
      assert (ps[a].0, ps[a].1) in ps;
    }
  }

  lemma AnyTextNotes(env: Env, form: Form, text: string)
    requires Parse(env, form, text).Ok?
    ensures NotesListed(form, PartsOf(form, text), Parse(env, form, text).value.notes)
  {
    var parts := PartsOf(form, text);
    GroupsAre(env, form, PlanOf(form, ReadGroups(parts, []).value), 0, Parsed([], []), "");
    NotesAreRows(form, parts, 0);
    RowsAreListed(form, parts);
    var ps := Rows(NoteHolds(form, parts), 0, |form.groups|, Lengths(form));
    assert [] + Labels(ps, Caption(form)) == Labels(ps, Caption(form));
  }

  // ---------------------------------------------------------------- why a text is refused

  /** A question of the sender's in a group gone into that the text gives no value. */
  ghost predicate Refuses(env: Env, form: Form, parts: seq<string>, i: nat, k: nat) {
    && i < |form.groups| && k < |form.groups[i].questions| && Entered(form.groups[i], parts)
    && ForSender(form.groups[i].questions[k], form.allowMedia)
    && forall value :: !Given(env, form, form.groups[i], parts, k, value)
  }

  /** The group is not in the text, it has no word at the question's place, or the text there is no value. */
  ghost predicate FaultAt(form: Form, parts: seq<string>, i: nat, k: nat, fault: Fault)
    requires i < |form.groups| && k < |form.groups[i].questions|
  {
    var g := form.groups[i];
    if !Named(parts, g.smsField) then fault == NoAnswers
    else if exists words, text :: Sent(parts, g.smsField, words) && Gets(g.questions, k, form.allowMedia, words, text)
         then fault == BadValue
    else fault == MissingWord
  }

  lemma {:induction false} GroupFault(c: Caster, qs: seq<Question>, allowMedia: bool, ts: Texts, i: nat, acc: Entries)
      returns (k: nat)
    requires i <= |qs| == |ts| && GroupEntries(c, qs, allowMedia, ts, i, acc).Err?
    ensures i <= k < |qs| && !Skipped(qs[k], allowMedia)
    ensures QuestionValue(c, qs[k], ts[k]) == Err(GroupEntries(c, qs, allowMedia, ts, i, acc).error)
    ensures forall j | i <= j < k :: !Skipped(qs[j], allowMedia) ==> QuestionValue(c, qs[j], ts[j]).Ok?
    decreases |qs| - i
  {
    if Skipped(qs[i], allowMedia) {
      k := GroupFault(c, qs, allowMedia, ts, i + 1, acc);
    } else {
      var v := QuestionValue(c, qs[i], ts[i]);
      if v.Ok? {
        k := GroupFault(c, qs, allowMedia, ts, i + 1, Put(acc, qs[i].name, v.value));
      } else {
        k := i;
      }
    }
  }

  lemma {:induction false} WalkFault(env: Env, form: Form, plan: Plan, i: nat, acc: Parsed) returns (n: nat)
    requires PlanFits(form, plan) && i <= |plan| && WalkGroups(env, form, plan, i, acc).Err?
    ensures i <= n < |plan| && plan[n].Some?
    ensures PlannedEntries(env, form, plan, n) == Err(WalkGroups(env, form, plan, i, acc).error)
    ensures forall j | i <= j < n :: GroupParses(env, form, plan, j)
    decreases |plan| - i
  {
    if plan[i].None? {
      n := WalkFault(env, form, plan, i + 1, acc);
    } else {
      var es := PlannedEntries(env, form, plan, i);
      if es.Ok? {
        n := WalkFault(env, form, plan, i + 1,
            Parsed(Put(acc.answers, form.groups[i].name, es.value), acc.notes + NotesOf(form.groups[i].questions)));
      } else {
        n := i;
      }
    }
  }

  lemma FaultIs(env: Env, form: Form, parts: seq<string>, i: nat, k: nat)
    requires ReadGroups(parts, []).Ok? && Refuses(env, form, parts, i, k)
    ensures var g := form.groups[i];
            var answers := Get(ReadGroups(parts, []).value, g.smsField);
            var v := QuestionValue(CasterOf(env, form), g.questions[k],
                RawText(g.questions, k, answers, form.allowMedia));
            v.Err? && FaultAt(form, parts, i, k, v.error)
  {
    var g := form.groups[i];
    QuestionGiven(env, form, g, parts, k);
    SmsIsSent(parts, g.smsField);
    forall words, text | Sent(parts, g.smsField, words)
      ensures RawText(g.questions, k, Some(words), form.allowMedia) == Ok(text)
              <==> Gets(g.questions, k, form.allowMedia, words, text)
    {
      GetsRawText(g.questions, k, form.allowMedia, words, text);
    }
  }

  /** Where a group before was read, and the questions before have values, nothing is refused. */
  lemma NoneRefusedBefore(env: Env, form: Form, parts: seq<string>, i: nat, k: nat, j: nat, l: nat)
    requires ReadGroups(parts, []).Ok? && i < |form.groups| && k < |form.groups[i].questions|
    requires Entered(form.groups[i], parts) && Refuses(env, form, parts, j, l)
    requires var plan := PlanOf(form, ReadGroups(parts, []).value);
             && plan[i].Some?
             && (forall h | 0 <= h < i :: GroupParses(env, form, plan, h))
             && forall h | 0 <= h < k :: !Skipped(form.groups[i].questions[h], form.allowMedia) ==>
                  QuestionValue(CasterOf(env, form), form.groups[i].questions[h], plan[i].value[h]).Ok?
    ensures (j, l) == (i, k) || Before((i, k), (j, l))
  {
    SenderOrMeta(form.groups[j].questions[l], form.allowMedia);
    QuestionGiven(env, form, form.groups[j], parts, l);
    if j < i { GroupGiven(env, form, parts, j); }
  }

  /** A text that is refused has a part without two words, or else the fault is that of the first question that is
      given no value. */
  lemma AnyTextFaults(env: Env, form: Form, text: string)
    requires Parse(env, form, text).Err?
    ensures var fault, parts := Parse(env, form, text).error, PartsOf(form, text);
            && (fault == Syntax <==> exists p | 0 <= p < |parts| :: |Words(parts[p])| < 2)
            && (fault != Syntax ==> exists i: nat, k: nat ::
                && Refuses(env, form, parts, i, k) && FaultAt(form, parts, i, k, fault)
                && forall j: nat, l: nat :: Refuses(env, form, parts, j, l) ==>
                    (j, l) == (i, k) || Before((i, k), (j, l)))
  {
    var parts := PartsOf(form, text);
    GroupsSent(parts, [], "");
    if ReadGroups(parts, []).Ok? {
      var plan := PlanOf(form, ReadGroups(parts, []).value);
      var i := WalkFault(env, form, plan, 0, Parsed([], []));
      var g := form.groups[i];
      EnteredIsPlanned(form, parts, i);
      var k := GroupFault(CasterOf(env, form), g.questions, form.allowMedia, plan[i].value, 0, []);
      SenderOrMeta(g.questions[k], form.allowMedia);
      QuestionGiven(env, form, g, parts, k);
      FaultIs(env, form, parts, i, k);
      forall j: nat, l: nat | Refuses(env, form, parts, j, l)
        ensures (j, l) == (i, k) || Before((i, k), (j, l))
      {
        NoneRefusedBefore(env, form, parts, i, k, j, l);
      }
    }
  }

  // ---------------------------------------------------------------- forms that pass the check

  predicate Select(q: Question) {
    q.kind.SelectOne? || q.kind.SelectAll?
  }

  /** The answer is several words, as the check sees it: it reads its own format for a date with time. */
  predicate SeveralWords(form: Form, q: Question) {
    match q.kind
    case FreeText | SelectAll | Geopoint | Barcode => true
    case Date => |Words(if form.dateFormat == "" then "%Y-%m-%d" else form.dateFormat)| > 1
    case DateTime => |Words(if form.datetimeFormat == "" then "%Y-%m-%d-%H:%M" else form.datetimeFormat)| > 1
    case _ => false
  }

  /** Questions sit in groups with an id (or named meta), options are given and distinct, and only the final question
      has an answer of several words. */
  predicate GroupPasses(form: Form, g: Group) {
    && g.isGroup && g.questions != []
    && (g.smsField == "" ==> g.name == "meta")
    && (forall k | 0 <= k < |g.questions| :: Select(g.questions[k]) ==> DistinctOptions(g.questions[k].choices))
    && (forall k | 0 <= k < |g.questions| :: SeveralWords(form, g.questions[k]) ==> Final(g.questions, k))
  }

  lemma GroupPassesExactly(form: Form, g: Group)
    ensures GroupPasses(form, g) <==>
      && g.isGroup && !NeedsSmsField(g) && GroupPlacedWell(form, g)
      && forall k | 0 <= k < |g.questions| :: OptionsOk(g.questions[k])
  {
    forall k | 0 <= k < |g.questions|
      ensures OptionsOk(g.questions[k]) <==> (Select(g.questions[k]) ==> DistinctOptions(g.questions[k].choices))
      ensures PlacedWell(form, g.questions, k) <==> (SeveralWords(form, g.questions[k]) ==> Final(g.questions, k))
    {
      OptionsDistinct(g.questions[k].choices);
    }
  }

  ghost predicate Within(s: string, t: string) {
    exists before, after :: t == before + (s + after)
  }

  lemma WithinExactly(s: string, t: string)
    ensures Contains(t, s) <==> Within(s, t)
  {
    if i :| 0 <= i <= |t| && StartsWith(t[i..], s) {
      assert t[i..][..|s|] == s;
      assert t == t[..i] + (s + t[i..][|s|..]);
    }
    if before, after :| t == before + (s + after) {
      assert StartsWith(t[|before|..], s);
    }
  }

  /** A form passes the check if and only if each of its groups does, and its separator, when media are allowed, is
      not found in the alphabet that media are sent in. */
  lemma CompatibleExactly(form: Form)
    ensures IsCompatible(form) <==>
      && (forall i | 0 <= i < |form.groups| :: GroupPasses(form, form.groups[i]))
      && (form.allowMedia ==>
            !Within(if form.separator == "" then "+" else form.separator,
              "ABCDEFGHIJKLMNOPQRSTUVWXYZabcdefghijklmnopqrstuvwxyz0123456789+/="))
  {
    WithinExactly(SeparatorOf(form), BASE64_ALPHABET);
    forall i | 0 <= i < |form.groups|
      ensures GroupPasses(form, form.groups[i]) <==>
        && form.groups[i].isGroup && !NeedsSmsField(form.groups[i]) && GroupPlacedWell(form, form.groups[i])
        && forall k | 0 <= k < |form.groups[i].questions| :: OptionsOk(form.groups[i].questions[k])
    {
      GroupPassesExactly(form, form.groups[i]);
    }
  }
}
