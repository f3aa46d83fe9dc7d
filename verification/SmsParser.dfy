/** Reading a form's answers out of an SMS text (parse_sms_text in onadata/apps/sms_support/parser.py). */
module SmsParser {
  import opened Common
  import opened Text
  import opened Grouping
  import opened SmsText
  import opened SmsForm

  /** Syntax: a group without answers (ValueError); MissingWord: IndexError; NoAnswers: TypeError; BadValue:
      SMSCastingError. */
  datatype Fault = Syntax | MissingWord | NoAnswers | BadValue

  /** Casting of the kinds not spelled out here, reading a date by a format, and the values of meta questions. */
  datatype Env = Env(cast: (Kind, string) -> Option<string>, strptime: (string, string) -> Option<string>,
      meta: string -> string)

  /** What casting a value needs, besides the question. */
  datatype Caster = Caster(env: Env, dateFormat: string, datetimeFormat: string)

  /** The format a date or (for any other kind) a date with time is read by: both come from "sms_date_format". */
  function ReadFormat(form: Form, kind: Kind): string {
    if form.dateFormat != "" then form.dateFormat else if kind.Date? then DATE_FORMAT else DATETIME_FORMAT
  }

  function CasterOf(env: Env, form: Form): Caster {
    Caster(env, ReadFormat(form, Date), ReadFormat(form, DateTime))
  }

  type Entries = seq<(string, string)>

  datatype Parsed = Parsed(answers: seq<(string, Entries)>, notes: seq<string>)

  // ---------------------------------------------------------------- values

  function ChoiceNamed(choices: seq<Choice>, option: string): Option<string> {
    if choices == [] then None
    else if choices[0].option == Some(option) then Some(choices[0].name)
    else ChoiceNamed(choices[1..], option)
  }

  function ChoicesNamed(choices: seq<Choice>, option: string): seq<string> {
    if choices == [] then []
    else (if choices[0].option == Some(option) then [choices[0].name] else []) + ChoicesNamed(choices[1..], option)
  }

  function AllNamed(choices: seq<Choice>, options: seq<string>): seq<string> {
    if options == [] then [] else ChoicesNamed(choices, options[0]) + AllNamed(choices, options[1..])
  }

  function CastValue(c: Caster, q: Question, value: string): Option<string> {
    if q.required && value == "" then None
    else match q.kind
      case FreeText | Barcode => Some(value)
      case SelectOne => ChoiceNamed(q.choices, value)
      case SelectAll => Some(Join(AllNamed(q.choices, Words(value)), " "))
      case Date => c.env.strptime(c.dateFormat, value)
      case DateTime => c.env.strptime(c.datetimeFormat, value)
      case _ => c.env.cast(q.kind, value)
  }

  // ---------------------------------------------------------------- questions and positions

  /** Left out of the answers: not implemented, only displayed, or media that are not allowed. */
  predicate Skipped(q: Question, allowMedia: bool) {
    q.kind.Calculate? || q.kind.Note? || NoMedia(q, allowMedia)
  }

  predicate NoMedia(q: Question, allowMedia: bool) { !allowMedia && q.kind.Media? }

  /** Answered by the sender. */
  predicate Answered(q: Question, allowMedia: bool) {
    !Skipped(q, allowMedia) && !q.kind.Meta?
  }

  /** Disallowed media questions before a position. */
  function StepBack(qs: seq<Question>, i: nat, allowMedia: bool): (n: nat)
    requires i <= |qs|
    ensures n <= i
  {
    if i == 0 then 0 else StepBack(qs, i - 1, allowMedia) + if NoMedia(qs[i - 1], allowMedia) then 1 else 0
  }

  /** The words of the group's text that the code takes for a question. */
  function RawText(qs: seq<Question>, i: nat, answers: Option<seq<string>>, allowMedia: bool): Result<string, Fault>
    requires i < |qs|
  {
    match answers
    case None => Err(NoAnswers)
    case Some(words) =>
      if IsLast(i, qs) then Ok(Join(if i <= |words| then words[i..] else [], " "))
      else
        var s := i - StepBack(qs, i, allowMedia);
        if s < |words| then Ok(words[s]) else Err(MissingWord)
  }

  /** The text (or the failure to find it) of every question of a group. */
  type Texts = seq<Result<string, Fault>>

  function RawTexts(qs: seq<Question>, answers: Option<seq<string>>, allowMedia: bool): (ts: Texts)
    ensures |ts| == |qs|
    ensures forall i :: 0 <= i < |qs| ==> ts[i] == RawText(qs, i, answers, allowMedia)
  {
    seq(|qs|, i requires 0 <= i < |qs| => RawText(qs, i, answers, allowMedia))
  }

  function QuestionValue(c: Caster, q: Question, raw: Result<string, Fault>): Result<string, Fault> {
    if q.kind.Meta? then Ok(c.env.meta(q.kind.tag))
    else match raw
      case Err(e) => Err(e)
      case Ok(text) => (match CastValue(c, q, text) case None => Err(BadValue) case Some(v) => Ok(v))
  }

  /** The answers of a group, given what text each question gets. */
  function GroupEntries(c: Caster, qs: seq<Question>, allowMedia: bool, texts: Texts, i: nat,
      acc: Entries): Result<Entries, Fault>
    requires i <= |qs| == |texts|
    decreases |qs| - i
  {
    if i == |qs| then Ok(acc)
    else if Skipped(qs[i], allowMedia) then GroupEntries(c, qs, allowMedia, texts, i + 1, acc)
    else match QuestionValue(c, qs[i], texts[i])
      case Err(e) => Err(e)
      case Ok(v) => GroupEntries(c, qs, allowMedia, texts, i + 1, Put(acc, qs[i].name, v))
  }

  /** The captions of the unconstrained notes among the first n questions. */
  function NotesBefore(qs: seq<Question>, n: nat): seq<string>
    requires n <= |qs|
  {
    if n == 0 then []
    else NotesBefore(qs, n - 1) + if qs[n - 1].kind.Note? && !qs[n - 1].constrained then [qs[n - 1].caption] else []
  }

  function NotesOf(qs: seq<Question>): seq<string> { NotesBefore(qs, |qs|) }

  // ---------------------------------------------------------------- groups

  type Sms = seq<(string, seq<string>)>

  /** Group ids with their words; a repeated id replaces the earlier one. */
  function ReadGroups(parts: seq<string>, acc: Sms): Result<Sms, Fault>
    decreases |parts|
  {
    if parts == [] then Ok(acc)
    else
      var words := Words(parts[0]);
      if |words| < 2 then Err(Syntax) else ReadGroups(parts[1..], Put(acc, words[0], words[1..]))
  }

  predicate StartsMeta(field: string) { "meta" <= field }

  /** For every group of the form its questions' texts, or None when the group is passed over. */
  type Plan = seq<Option<Texts>>

  predicate Visited(g: Group, filled: bool) {
    g.isGroup && g.smsField != "" && (filled || StartsMeta(g.smsField))
  }

  function GroupTexts(g: Group, sms: Sms, allowMedia: bool): Option<Texts> {
    var answers := Get(sms, g.smsField);
    if Visited(g, answers.Some?) then Some(RawTexts(g.questions, answers, allowMedia)) else None
  }

  function PlanOf(form: Form, sms: Sms): (plan: Plan)
    ensures PlanFits(form, plan)
    ensures forall i :: 0 <= i < |form.groups| ==> plan[i] == GroupTexts(form.groups[i], sms, form.allowMedia)
  {
    seq(|form.groups|, i requires 0 <= i < |form.groups| => GroupTexts(form.groups[i], sms, form.allowMedia))
  }

  predicate PlanFits(form: Form, plan: Plan) {
    |plan| == |form.groups| && forall i | 0 <= i < |plan| :: plan[i].Some? ==>
        |plan[i].value| == |form.groups[i].questions|
  }

  function WalkGroups(env: Env, form: Form, plan: Plan, i: nat, acc: Parsed): Result<Parsed, Fault>
    requires PlanFits(form, plan) && i <= |plan|
    decreases |plan| - i
  {
    if i == |plan| then Ok(acc)
    else if plan[i].None? then WalkGroups(env, form, plan, i + 1, acc)
    else
      var g := form.groups[i];
      match GroupEntries(CasterOf(env, form), g.questions, form.allowMedia, plan[i].value, 0, [])
      case Err(e) => Err(e)
      case Ok(entries) =>
        WalkGroups(env, form, plan, i + 1, Parsed(Put(acc.answers, g.name, entries), acc.notes + NotesOf(g.questions)))
  }

  function Parse(env: Env, form: Form, text: string): Result<Parsed, Fault> {
    match ReadGroups(SplitBy(text, SeparatorOf(form))[1..], [])
    case Err(e) => Err(e)
    case Ok(sms) => WalkGroups(env, form, PlanOf(form, sms), 0, Parsed([], []))
  }

  // ---------------------------------------------------------------- the loops

  method QuestionAnswer(c: Caster, qs: seq<Question>, i: nat, stepBack: nat, answers: Option<seq<string>>,
      allowMedia: bool)
      returns (r: Result<string, Fault>)
    requires i < |qs| && stepBack == StepBack(qs, i, allowMedia)
    ensures r == QuestionValue(c, qs[i], RawText(qs, i, answers, allowMedia))
  {
    if qs[i].kind.Meta? {
      return Ok(c.env.meta(qs[i].kind.tag));
    }
    if answers.None? {
      return Err(NoAnswers);
    }
    var answer: string;
    if IsLast(i, qs) {
      answer := Join(if i <= |answers.value| then answers.value[i..] else [], " ");
    } else if i - stepBack < |answers.value| {
      answer := answers.value[i - stepBack];
    } else {
      return Err(MissingWord);
    }
    var cast := CastValue(c, qs[i], answer);
    r := if cast.None? then Err(BadValue) else Ok(cast.value);
  }

  method ParseGroup(c: Caster, qs: seq<Question>, answers: Option<seq<string>>, allowMedia: bool)
      returns (r: Result<Entries, Fault>, notes: seq<string>)
    ensures r == GroupEntries(c, qs, allowMedia, RawTexts(qs, answers, allowMedia), 0, [])
    ensures r.Ok? ==> notes == NotesOf(qs)
  {
    ghost var texts := RawTexts(qs, answers, allowMedia);
    var entries: Entries := [];
    notes := [];
    var stepBack := 0;
    var i := 0;
    while i < |qs|
      invariant 0 <= i <= |qs|
      invariant stepBack == StepBack(qs, i, allowMedia)
      invariant notes == NotesBefore(qs, i)
      invariant GroupEntries(c, qs, allowMedia, texts, i, entries) == GroupEntries(c, qs, allowMedia, texts, 0, [])
    {
      var q := qs[i];
      if q.kind.Note? && !q.constrained {
        notes := notes + [q.caption];
      }
      if q.kind.Calculate? || q.kind.Note? {
        // not answered
      } else if !allowMedia && q.kind.Media? {
        stepBack := stepBack + 1;
      } else {
        assert !Skipped(q, allowMedia);
        var value := QuestionAnswer(c, qs, i, stepBack, answers, allowMedia);
        if value.Err? {
          return Err(value.error), notes;
        }
        entries := Put(entries, q.name, value.value);
      }
      i := i + 1;
    }
    r := Ok(entries);
  }

  method ParseSmsText(env: Env, form: Form, text: string) returns (r: Result<Parsed, Fault>)
    ensures r == Parse(env, form, text)
  {
    var parts := SplitBy(text, SeparatorOf(form))[1..];
    var sms: Sms := [];
    var i := 0;
    while i < |parts|
      invariant 0 <= i <= |parts|
      invariant ReadGroups(parts[i..], sms) == ReadGroups(parts, [])
    {
      assert parts[i..][0] == parts[i] && parts[i..][1..] == parts[i + 1..];
      var words := Words(parts[i]);
      if |words| < 2 {
        return Err(Syntax);
      }
      sms := Put(sms, words[0], words[1..]);
      i := i + 1;
    }
    var acc := Parsed([], []);
    ghost var plan := PlanOf(form, sms);
    i := 0;
    while i < |form.groups|
      invariant 0 <= i <= |form.groups|
      invariant WalkGroups(env, form, plan, i, acc) == WalkGroups(env, form, plan, 0, Parsed([], []))
    {
      var g := form.groups[i];
      var answers := Get(sms, g.smsField);
      if g.isGroup && g.smsField != "" && (answers.Some? || StartsMeta(g.smsField)) {
        var entries, notes := ParseGroup(CasterOf(env, form), g.questions, answers, form.allowMedia);
        if entries.Err? {
          return Err(entries.error);
        }
        acc := Parsed(Put(acc.answers, g.name, entries.value), acc.notes + notes);
      }
      i := i + 1;
    }
    r := Ok(acc);
  }

  /** Only the texts of the questions that are answered matter. */
  lemma {:induction false} SameTextsSameEntries(c: Caster, qs: seq<Question>, allowMedia: bool, ts: Texts, ts': Texts,
      i: nat, acc: Entries)
    requires i <= |qs| == |ts| == |ts'|
    requires forall k :: i <= k < |qs| && Answered(qs[k], allowMedia) ==> ts[k] == ts'[k]
    ensures GroupEntries(c, qs, allowMedia, ts, i, acc) == GroupEntries(c, qs, allowMedia, ts', i, acc)
    decreases |qs| - i
  {
    if i < |qs| {
      if Skipped(qs[i], allowMedia) {
        SameTextsSameEntries(c, qs, allowMedia, ts, ts', i + 1, acc);
      } else {
        var v := QuestionValue(c, qs[i], ts[i]);
        assert v == QuestionValue(c, qs[i], ts'[i]);
        if v.Ok? {
          SameTextsSameEntries(c, qs, allowMedia, ts, ts', i + 1, Put(acc, qs[i].name, v.value));
        }
      }
    }
  }

  /** Two plans agree on the texts that matter. */
  ghost predicate SamePlan(form: Form, p: Plan, p': Plan)
    requires PlanFits(form, p) && PlanFits(form, p')
  {
    forall i :: 0 <= i < |p| ==>
      && p[i].Some? == p'[i].Some?
      && (p[i].Some? ==>
            forall k | 0 <= k < |form.groups[i].questions| && Answered(form.groups[i].questions[k], form.allowMedia) ::
              p[i].value[k] == p'[i].value[k])
  }

  lemma {:induction false} SamePlanSameWalk(env: Env, form: Form, p: Plan, p': Plan, i: nat, acc: Parsed)
    requires PlanFits(form, p) && PlanFits(form, p') && i <= |p| && SamePlan(form, p, p')
    ensures WalkGroups(env, form, p, i, acc) == WalkGroups(env, form, p', i, acc)
    decreases |p| - i
  {
    if i < |p| {
      if p[i].None? {
        SamePlanSameWalk(env, form, p, p', i + 1, acc);
      } else {
        var g := form.groups[i];
        SameTextsSameEntries(CasterOf(env, form), g.questions, form.allowMedia, p[i].value, p'[i].value, 0, []);
        var entries := GroupEntries(CasterOf(env, form), g.questions, form.allowMedia, p[i].value, 0, []);
        if entries.Ok? {
          SamePlanSameWalk(env, form, p, p', i + 1,
              Parsed(Put(acc.answers, g.name, entries.value), acc.notes + NotesOf(g.questions)));
        }
      }
    }
  }
}
