/** Forms as SMS support sees them, and the compatibility check (onadata/apps/sms_support/tools.py). */
module SmsForm {
  import opened Common
  import opened SmsText

  /** option is None when the choice has no "sms_option" at all. */
  datatype Choice = Choice(name: string, option: Option<string>)
  {
    /** An option that is given and not empty. */
    predicate HasOption() {
      option.Some? && option.value != ""
    }
  }

  /** Question types; Meta is one of start, end, today, deviceid, subscriberid, imei and phonenumber, Media one of
      audio, video and photo. */
  datatype Kind =
    | Calculate | Note | Meta(tag: string) | Media(tag: string)
    | FreeText | Barcode | SelectOne | SelectAll | Geopoint | Date | DateTime
    | Other(tag: string)

  datatype Question = Question(name: string, kind: Kind, caption: string, required: bool, constrained: bool,
      choices: seq<Choice>)

  datatype Group = Group(isGroup: bool, name: string, smsField: string, questions: seq<Question>)

  /** Empty strings stand for settings that are not given. */
  datatype Form = Form(separator: string, allowMedia: bool, dateFormat: string, datetimeFormat: string,
      groups: seq<Group>)

  const DATE_FORMAT := "%Y-%m-%d"

  const DATETIME_FORMAT := "%Y-%m-%d-%H:%M"

  const BASE64_ALPHABET := "ABCDEFGHIJKLMNOPQRSTUVWXYZabcdefghijklmnopqrstuvwxyz0123456789+/="

  function SeparatorOf(form: Form): (s: string)
    ensures s != ""
  {
    if form.separator == "" then "+" else form.separator
  }

  /** The last question, or the one before a trailing note. */
  predicate IsLast(i: nat, questions: seq<Question>)
    requires i < |questions|
  {
    i == |questions| - 1 || (questions[|questions| - 1].kind.Note? && i + 2 == |questions|)
  }

  // ---------------------------------------------------------------- the blockers

  datatype Blocker =
    | OutOfGroup
    | NoSmsField(group: string)
    | BadOptions(question: string)
    | SpacesBeforeLast(question: string)
    | BadSeparator

  /** Crashed: a group without questions is indexed. */
  datatype Verdict = Compatible | Blocked(blocker: Blocker) | Crashed

  predicate Sensitive(form: Form, kind: Kind) {
    match kind
    case FreeText | SelectAll | Geopoint | Barcode => true
    case Date => |Words(if form.dateFormat == "" then DATE_FORMAT else form.dateFormat)| > 1
    case DateTime => |Words(if form.datetimeFormat == "" then DATETIME_FORMAT else form.datetimeFormat)| > 1
    case _ => false
  }

  predicate NeedsSmsField(g: Group) { g.smsField == "" && g.name != "meta" }

  function Options(choices: seq<Choice>): set<string> {
    set c | c in choices && c.HasOption() :: c.option.value
  }

  predicate OptionsOk(q: Question) {
    q.kind.SelectOne? || q.kind.SelectAll? ==> |q.choices| == |Options(q.choices)|
  }

  function LastPosition(questions: seq<Question>): nat
    requires questions != []
  {
    var n := |questions|;
    if questions[n - 1].kind.Note? && n > 1 then n - 2 else n - 1
  }

  predicate PlacedWell(form: Form, questions: seq<Question>, i: nat)
    requires questions != [] && i < |questions|
  {
    i != LastPosition(questions) ==> !Sensitive(form, questions[i].kind)
  }

  predicate GroupPlacedWell(form: Form, g: Group) {
    g.questions != [] && forall i | 0 <= i < |g.questions| :: PlacedWell(form, g.questions, i)
  }

  predicate SeparatorOk(form: Form) {
    form.allowMedia ==> !Contains(BASE64_ALPHABET, SeparatorOf(form))
  }

  predicate Contains(s: string, t: string) {
    exists i | 0 <= i <= |s| :: StartsWith(s[i..], t)
  }

  predicate IsCompatible(form: Form) {
    && (forall i | 0 <= i < |form.groups| :: form.groups[i].isGroup)
    && (forall i | 0 <= i < |form.groups| :: !NeedsSmsField(form.groups[i]))
    && (forall i, j | 0 <= i < |form.groups| && 0 <= j < |form.groups[i].questions| ::
        OptionsOk(form.groups[i].questions[j]))
    && (forall i | 0 <= i < |form.groups| :: GroupPlacedWell(form, form.groups[i]))
    && SeparatorOk(form)
  }

  /** Why a blocker was reported: the first kind of fault there is, at the place the code names. */
  ghost predicate Justified(form: Form, b: Blocker) {
    var gs := form.groups;
    match b
    case OutOfGroup => exists i | 0 <= i < |gs| :: !gs[i].isGroup
    case NoSmsField(name) => exists i | 0 <= i < |gs| :: NeedsSmsField(gs[i]) && gs[i].name == name
                                                         && forall j | i < j < |gs| :: !NeedsSmsField(gs[j])
    case BadOptions(name) => exists i, j | 0 <= i < |gs| && 0 <= j < |gs[i].questions| ::
      !OptionsOk(gs[i].questions[j]) && gs[i].questions[j].name == name
    case SpacesBeforeLast(name) => exists i, j | 0 <= i < |gs| && 0 <= j < |gs[i].questions| ::
      !PlacedWell(form, gs[i].questions, j) && gs[i].questions[j].name == name
    case BadSeparator => !SeparatorOk(form)
  }

  method CheckOptions(q: Question) returns (ok: bool)
    ensures ok == OptionsOk(q)
  {
    if !q.kind.SelectOne? && !q.kind.SelectAll? {
      return true;
    }
    var options: set<string> := {};
    var i := 0;
    while i < |q.choices|
      invariant 0 <= i <= |q.choices|
      invariant options == Options(q.choices[..i])
    {
      assert q.choices[..i + 1] == q.choices[..i] + [q.choices[i]];
      if q.choices[i].HasOption() {
        options := options + {q.choices[i].option.value};
      }
      i := i + 1;
    }
    assert q.choices[..i] == q.choices;
    ok := |q.choices| == |options|;
  }

  method CheckCompatibility(form: Form) returns (v: Verdict)
    ensures v == Compatible <==> IsCompatible(form)
    ensures v.Blocked? ==> Justified(form, v.blocker)
    ensures v.Crashed? ==> exists i | 0 <= i < |form.groups| :: form.groups[i].questions == []
  {
    var gs := form.groups;
    var i := 0;
    while i < |gs|
      invariant 0 <= i <= |gs|
      invariant forall k | 0 <= k < i :: gs[k].isGroup
    {
      if !gs[i].isGroup {
        return Blocked(OutOfGroup);
      }
      i := i + 1;
    }
    var bad: Option<string> := None;
    i := 0;
    while i < |gs|
      invariant 0 <= i <= |gs|
      invariant bad.None? <==> forall k | 0 <= k < i :: !NeedsSmsField(gs[k])
      invariant bad.Some? ==> exists k | 0 <= k < i :: NeedsSmsField(gs[k]) && gs[k].name == bad.value
                                                       && forall j | k < j < i :: !NeedsSmsField(gs[j])
    {
      if NeedsSmsField(gs[i]) {
        bad := Some(gs[i].name);
      }
      i := i + 1;
    }
    if bad.Some? {
      return Blocked(NoSmsField(bad.value));
    }
    i := 0;
    while i < |gs|
      invariant 0 <= i <= |gs|
      invariant forall k, l | 0 <= k < i && 0 <= l < |gs[k].questions| :: OptionsOk(gs[k].questions[l])
    {
      var j := 0;
      while j < |gs[i].questions|
        invariant 0 <= j <= |gs[i].questions|
        invariant forall l | 0 <= l < j :: OptionsOk(gs[i].questions[l])
      {
        var ok := CheckOptions(gs[i].questions[j]);
        if !ok {
          return Blocked(BadOptions(gs[i].questions[j].name));
        }
        j := j + 1;
      }
      i := i + 1;
    }
    v := CheckPlaces(form);
    if v == Compatible && !SeparatorOk(form) {
      v := Blocked(BadSeparator);
    }
  }

  /** Questions whose answers may hold spaces come last in their group. */
  method CheckPlaces(form: Form) returns (v: Verdict)
    ensures v == Compatible <==> forall i | 0 <= i < |form.groups| :: GroupPlacedWell(form, form.groups[i])
    ensures v.Blocked? ==> v.blocker.SpacesBeforeLast? && Justified(form, v.blocker)
    ensures v.Crashed? ==> exists i | 0 <= i < |form.groups| :: form.groups[i].questions == []
  {
    var i := 0;
    while i < |form.groups|
      invariant 0 <= i <= |form.groups|
      invariant forall k | 0 <= k < i :: GroupPlacedWell(form, form.groups[k])
    {
      var fields := form.groups[i].questions;
      if |fields| == 0 {
        return Crashed;
      }
      var lastPos := |fields| - 1;
      if fields[lastPos].kind.Note? {
        if |fields| - 1 != 0 {
          lastPos := lastPos - 1;
        }
      }
      var j := 0;
      while j < |fields|
        invariant 0 <= j <= |fields|
        invariant forall l | 0 <= l < j :: PlacedWell(form, fields, l)
      {
        if j != lastPos && Sensitive(form, fields[j].kind) {
          assert !PlacedWell(form, form.groups[i].questions, j);
          assert !GroupPlacedWell(form, form.groups[i]);
          return Blocked(SpacesBeforeLast(fields[j].name));
        }
        j := j + 1;
      }
      i := i + 1;
    }
    v := Compatible;
  }

  // ---------------------------------------------------------------- what the check guarantees

  predicate DistinctOptions(choices: seq<Choice>) {
    && (forall i | 0 <= i < |choices| :: choices[i].HasOption())
    && (forall i, j | 0 <= i < j < |choices| :: choices[i].option != choices[j].option)
  }

  lemma OptionsStep(choices: seq<Choice>)
    requires choices != []
    ensures Options(choices) == Options(choices[1..]) + if choices[0].HasOption() then {choices[0].option.value} else {}
  {}

  lemma DistinctOptionsStep(choices: seq<Choice>)
    requires choices != []
    ensures DistinctOptions(choices) <==>
      choices[0].HasOption() && choices[0].option.value !in Options(choices[1..]) && DistinctOptions(choices[1..])
  {}

  /** As many options as choices means: no option is missing and none is used twice. */
  lemma {:induction false} OptionsDistinct(choices: seq<Choice>)
    ensures |Options(choices)| <= |choices|
    ensures |Options(choices)| == |choices| <==> DistinctOptions(choices)
  {
    if choices != [] {
      OptionsDistinct(choices[1..]);
      OptionsStep(choices);
      DistinctOptionsStep(choices);
      if choices[0].HasOption() && choices[0].option.value in Options(choices[1..]) {
        assert Options(choices) == Options(choices[1..]);
      }
    }
  }
}
