/**
 Decrypting one submission (decrypt_instance in onadata/libs/kms/tools.py): key lookup, the transaction
 that replaces the stored files, and the decrypted-submission counter.
 */
module KmsDecrypt {
  import opened Common
  import opened Kms
  import Laws = KmsLaws
  import Runs = KmsRuns

  datatype File = File(name: string, data: string)

  datatype Attachment = Attachment(file: File, live: bool)

  datatype Status = Pending | Success | Failed

  datatype Failure =
    | NotEncrypted | Unmanaged | KeyNotFound | KeyDisabled | MediaMissing | InvalidSubmission
    | SeveralKeys          // the lookup finds more than one row
    | Other                // any other exception while files are read or stored

  /** How the stream of decrypted files ends. */
  datatype Ending = Complete | Invalid | Broken

  /** What the code asks of its surroundings. */
  datatype World = World(
    isEncrypted: string -> bool,      // the submission's root element says encrypted="yes"
    tables: State,
    mediaReceived: bool,
    files: seq<File>,
    ending: Ending)

  /** The stored submission; increments counts the scheduled counter increments. */
  datatype Stored = Stored(
    form: nat, version: Version, xml: string, status: Status, error: Option<Failure>,
    attachments: seq<Attachment>, history: seq<string>, increments: nat)

  // ---------------------------------------------------------------- the key lookup

  datatype Lookup = NoRow | OneRow(key: nat) | SeveralRows

  function RowsOf(s: State, f: nat, v: Version): set<XFormKey> {
    set r | r in s.rows && r.form == f && r.version == v
  }

  ghost function LookupKey(s: State, f: nat, v: Version): Lookup {
    var found := RowsOf(s, f, v);
    if found == {} then NoRow
    else if exists r :: found == {r} then var r :| found == {r}; OneRow(r.key)
    else SeveralRows
  }

  /** Currently managed, or managed at some time. */
  predicate IsWasManaged(s: State, f: nat) {
    (f in s.forms && s.forms[f].managed) || exists r | r in s.rows :: r.form == f
  }

  // ---------------------------------------------------------------- what decryption does

  function Lower(c: char): char {
    if 'A' <= c <= 'Z' then (c as int - 'A' as int + 'a' as int) as char else c
  }

  predicate IsSubmissionFile(f: File) {
    |f.name| == |"submission.xml"| && forall i | 0 <= i < |f.name| :: Lower(f.name[i]) == "submission.xml"[i]
  }

  /** The last decrypted submission file wins. */
  function NewXml(files: seq<File>, xml: string): string {
    if files == [] then xml
    else if IsSubmissionFile(files[|files| - 1]) then files[|files| - 1].data
    else NewXml(files[..|files| - 1], xml)
  }

  function Media(files: seq<File>): seq<Attachment> {
    if files == [] then []
    else
      var last := files[|files| - 1];
      Media(files[..|files| - 1]) + if IsSubmissionFile(last) then [] else [Attachment(last, true)]
  }

  function Discarded(attachments: seq<Attachment>): seq<Attachment> {
    seq(|attachments|, i requires 0 <= i < |attachments| => attachments[i].(live := false))
  }

  function Live(attachments: seq<Attachment>): seq<File> {
    if attachments == [] then []
    else (if attachments[0].live then [attachments[0].file] else []) + Live(attachments[1..])
  }

  function Fail(s: Stored, failure: Failure): Stored {
    s.(error := Some(failure), status := Failed)
  }

  ghost function Decrypted(s: Stored, files: seq<File>): Stored {
    s.(xml := NewXml(files, s.xml),
       status := if exists i :: 0 <= i < |files| && IsSubmissionFile(files[i]) then Success else s.status,
       attachments := Discarded(s.attachments) + Media(files),
       history := s.history + [s.xml],
       increments := s.increments + if s.history == [] then 1 else 0)
  }

  /** None: the submission was decrypted. */
  ghost function Decrypt(s: Stored, w: World): (Stored, Option<Failure>) {
    if !w.isEncrypted(s.xml) then (s, Some(NotEncrypted))
    else if !IsWasManaged(w.tables, s.form) then (s, Some(Unmanaged))
    else match LookupKey(w.tables, s.form, s.version)
      case NoRow => (Fail(s, KeyNotFound), Some(KeyNotFound))
      case SeveralRows => (s, Some(SeveralKeys))
      case OneRow(k) =>
        if k < |w.tables.keys| && w.tables.keys[k].disabledAt.Some? then (Fail(s, KeyDisabled), Some(KeyDisabled))
        else if !w.mediaReceived then (Fail(s, MediaMissing), Some(MediaMissing))
        else match w.ending
          case Complete => (Decrypted(s, w.files), None)
          case Invalid => (Fail(s, InvalidSubmission), Some(InvalidSubmission))
          case Broken => (s, Some(Other))
  }

  // ---------------------------------------------------------------- the submission, updated in place

  class Submission {
    const form: nat
    var version: Version
    var xml: string
    var status: Status
    var error: Option<Failure>
    var attachments: seq<Attachment>
    var history: seq<string>
    var increments: nat

    constructor (form: nat, version: Version, xml: string)
      ensures Abs() == Stored(form, version, xml, Pending, None, [], [], 0)
    {
      this.form, this.version, this.xml := form, version, xml;
      status, error, attachments, history, increments := Pending, None, [], [], 0;
    }

    function Abs(): Stored
      reads this
    {
      Stored(form, version, xml, status, error, attachments, history, increments)
    }

    method SaveError(failure: Failure)
      modifies `error, `status
      ensures Abs() == Fail(old(Abs()), failure)
    {
      error, status := Some(failure), Failed;
    }

    method DecryptInstance(w: World) returns (failure: Option<Failure>)
      modifies this
      ensures (Abs(), failure) == Decrypt(old(Abs()), w)
    {
      if !w.isEncrypted(xml) {
        return Some(NotEncrypted);
      }
      if !IsWasManaged(w.tables, form) {
        return Some(Unmanaged);
      }
      var found := RowsOf(w.tables, form, version);
      if found == {} {
        SaveError(KeyNotFound);
        return Some(KeyNotFound);
      }
      var row :| row in found;
      if found != {row} {
        forall r ensures found != {r} {
          assert found == {r} ==> row == r;
        }
        return Some(SeveralKeys);
      }
      if row.key < |w.tables.keys| && w.tables.keys[row.key].disabledAt.Some? {
        SaveError(KeyDisabled);
        return Some(KeyDisabled);
      }
      if !w.mediaReceived {
        SaveError(MediaMissing);
        return Some(MediaMissing);
      }
      failure := StoreFiles(w);
    }

    /** The transaction: every file is stored, or everything is rolled back. */
    method StoreFiles(w: World) returns (failure: Option<Failure>)
      modifies this
      ensures version == old(version)
      ensures w.ending == Complete ==> failure == None && Abs() == Decrypted(old(Abs()), w.files)
      ensures w.ending == Invalid ==> failure == Some(InvalidSubmission) && Abs() == Fail(old(Abs()), InvalidSubmission)
      ensures w.ending == Broken ==> failure == Some(Other) && Abs() == old(Abs())
    {
      var isEdit := history != [];
      var oldXml, oldStatus, oldAttachments := xml, status, attachments;
      StoreEach(w.files);
      if w.ending != Complete {
        xml, status, attachments := oldXml, oldStatus, oldAttachments;
        if w.ending == Invalid {
          SaveError(InvalidSubmission);
          return Some(InvalidSubmission);
        }
        return Some(Other);
      }
      history := history + [oldXml];
      // soft-delete what is live except the files just stored
      var all, stored := attachments, |oldAttachments|;
      attachments := seq(|all|, j requires 0 <= j < |all| => if j < stored then all[j].(live := false) else all[j]);
      assert attachments == Discarded(oldAttachments) + Media(w.files);
      if !isEdit {
        increments := increments + 1;
      }
      failure := None;
    }

    method StoreEach(files: seq<File>)
      modifies `xml, `status, `attachments
      ensures xml == NewXml(files, old(xml))
      ensures attachments == old(attachments) + Media(files)
      ensures status == if exists j :: 0 <= j < |files| && IsSubmissionFile(files[j]) then Success else old(status)
    {
      var i := 0;
      while i < |files|
        invariant 0 <= i <= |files|
        invariant xml == NewXml(files[..i], old(xml))
        invariant attachments == old(attachments) + Media(files[..i])
        invariant status == if exists j :: 0 <= j < i && IsSubmissionFile(files[j]) then Success else old(status)
      {
        assert files[..i + 1][..i] == files[..i];
        if IsSubmissionFile(files[i]) {
          xml, status := files[i].data, Success;
        } else {
          attachments := attachments + [Attachment(files[i], true)];
        }
        i := i + 1;
      }
      assert files[..i] == files;
    }
  }

  // ---------------------------------------------------------------- all or nothing

  lemma {:induction false} LiveAppend(xs: seq<Attachment>, ys: seq<Attachment>)
    ensures Live(xs + ys) == Live(xs) + Live(ys)
  {
    var all := xs + ys;
    if xs == [] {
      assert all == ys && [] + Live(ys) == Live(ys);
    } else {
      var first := if xs[0].live then [xs[0].file] else [];
      assert all[0] == xs[0] && all[1..] == xs[1..] + ys;
      LiveAppend(xs[1..], ys);
      assert first + (Live(xs[1..]) + Live(ys)) == (first + Live(xs[1..])) + Live(ys);
    }
  }

  lemma {:induction false} DiscardedIsDead(xs: seq<Attachment>)
    ensures Live(Discarded(xs)) == []
  {
    if xs != [] {
      assert Discarded(xs)[1..] == Discarded(xs[1..]);
      DiscardedIsDead(xs[1..]);
    }
  }

  /** The decrypted files other than the submission itself, in order. */
  function OtherFiles(files: seq<File>): seq<File> {
    if files == [] then []
    else (if IsSubmissionFile(files[0]) then [] else [files[0]]) + OtherFiles(files[1..])
  }

  lemma {:induction false} OtherFilesSnoc(files: seq<File>, f: File)
    ensures OtherFiles(files + [f]) == OtherFiles(files) + if IsSubmissionFile(f) then [] else [f]
  {
    var all, last := files + [f], if IsSubmissionFile(f) then [] else [f];
    if files == [] {
      assert all[0] == f && all[1..] == [];
      assert last + [] == last && [] + last == last;
    } else {
      var first := if IsSubmissionFile(files[0]) then [] else [files[0]];
      assert all[0] == files[0] && all[1..] == files[1..] + [f];
      OtherFilesSnoc(files[1..], f);
      assert first + (OtherFiles(files[1..]) + last) == (first + OtherFiles(files[1..])) + last;
    }
  }

  lemma {:induction false} MediaIsLive(files: seq<File>)
    ensures Live(Media(files)) == OtherFiles(files)
  {
    if files != [] {
      var n := |files| - 1;
      MediaIsLive(files[..n]);
      var tail := if IsSubmissionFile(files[n]) then [] else [Attachment(files[n], true)];
      LiveAppend(Media(files[..n]), tail);
      OtherFilesSnoc(files[..n], files[n]);
      assert files[..n] + [files[n]] == files;
    }
  }

  lemma {:induction false} NewXmlFromAFile(files: seq<File>, xml: string)
    ensures var i := LastSubmission(files);
      NewXml(files, xml) == if i < 0 then xml else files[i].data
  {
    if files != [] && !IsSubmissionFile(files[|files| - 1]) {
      NewXmlFromAFile(files[..|files| - 1], xml);
    }
  }

  /** Position of the last submission file, or -1. */
  function LastSubmission(files: seq<File>): (i: int)
    ensures -1 <= i < |files|
    ensures i >= 0 ==> IsSubmissionFile(files[i])
    ensures forall j :: i < j < |files| ==> !IsSubmissionFile(files[j])
  {
    if files == [] then -1
    else if IsSubmissionFile(files[|files| - 1]) then |files| - 1
    else LastSubmission(files[..|files| - 1])
  }

  /** A decryption either fails and leaves the stored XML, attachments, history and counter alone, or it saves
      the old XML as history, leaves exactly the decrypted files live, and stores the last decrypted submission. */
  lemma DecryptAllOrNothing(s: Stored, w: World)
    ensures var (s', failure) := Decrypt(s, w);
      if failure.Some? then
        s' == s || s' == Fail(s, failure.value)
      else
        && s'.history == s.history + [s.xml]
        && Live(s'.attachments) == OtherFiles(w.files)
        && s'.xml == (var i := LastSubmission(w.files); if i < 0 then s.xml else w.files[i].data)
        && s'.increments == s.increments + (if s.history == [] then 1 else 0)
  {
    var (s', failure) := Decrypt(s, w);
    if failure.None? {
      DiscardedIsDead(s.attachments);
      MediaIsLive(w.files);
      LiveAppend(Discarded(s.attachments), Media(w.files));
      NewXmlFromAFile(w.files, s.xml);
    }
  }

  // ---------------------------------------------------------------- runs

  datatype Event =
    | Decryption(w: World)
    | Edit(xml: string, version: Version, attachments: seq<Attachment>)    // keeps the old XML as history
    | Receive(f: File)

  ghost function Apply(s: Stored, e: Event): Stored {
    match e
    case Decryption(w) => Decrypt(s, w).0
    case Edit(xml, version, attachments) =>
      s.(xml := xml, version := version, attachments := attachments, history := s.history + [s.xml])
    case Receive(f) => s.(attachments := s.attachments + [Attachment(f, true)])
  }

  ghost function Run(s: Stored, es: seq<Event>): Stored
    decreases |es|
  {
    if es == [] then s else Run(Apply(s, es[0]), es[1..])
  }

  /** Over any run, the increment is scheduled at most once, and once a history exists never again. */
  lemma {:induction false} IncrementedAtMostOnce(s: Stored, es: seq<Event>)
    ensures s.increments <= Run(s, es).increments <= s.increments + 1
    ensures s.history != [] ==> Run(s, es).increments == s.increments
    ensures Run(s, es).increments > s.increments ==> Run(s, es).history != []
    decreases |es|
  {
    if es != [] {
      IncrementedAtMostOnce(Apply(s, es[0]), es[1..]);
      HistoryGrows(Apply(s, es[0]), es[1..]);
    }
  }

  /** The event replaces the stored XML and keeps the old one as history. */
  ghost predicate Saves(s: Stored, e: Event) {
    e.Edit? || (e.Decryption? && Decrypt(s, e.w).1.None?)
  }

  /** The first event of a run that keeps a history. */
  ghost predicate FirstSaved(s: Stored, es: seq<Event>, n: nat) {
    n < |es| && Saves(Run(s, es[..n]), es[n]) && forall m: nat :: m < n ==> !Saves(Run(s, es[..m]), es[m])
  }

  ghost predicate DecryptedFirst(s: Stored, es: seq<Event>) {
    exists n: nat :: FirstSaved(s, es, n) && es[n].Decryption?
  }

  /** Over any run, the increment is scheduled if and only if there is no history yet and the first event that keeps one
      is a decryption, not an edit. */
  lemma {:induction false} IncrementedExactly(s: Stored, es: seq<Event>)
    ensures Run(s, es).increments == s.increments + if s.history == [] && DecryptedFirst(s, es) then 1 else 0
    decreases |es|
  {
    if s.history != [] {
      IncrementedAtMostOnce(s, es);
    } else if es != [] {
      var s1 := Apply(s, es[0]);
      assert es[..0] == [];
      if Saves(s, es[0]) {
        assert s1.history != [] && FirstSaved(s, es, 0);
        IncrementedAtMostOnce(s1, es[1..]);
        if n: nat :| FirstSaved(s, es, n) && es[n].Decryption? {
          FirstIsFirst(s, es, n);
        }
      } else {
        assert s1.history == [] && s1.increments == s.increments;
        IncrementedExactly(s1, es[1..]);
        FirstSavedLater(s, es);
      }
    }
  }

  lemma FirstIsFirst(s: Stored, es: seq<Event>, n: nat)
    requires es != [] && Saves(s, es[0])
    ensures FirstSaved(s, es, n) <==> n == 0
  {
    assert es[..0] == [] && Saves(Run(s, es[..0]), es[0]);
  }

  lemma OneEarlier(s: Stored, es: seq<Event>, n: nat)
    requires es != [] && n < |es[1..]|
    ensures Run(s, es[..n + 1]) == Run(Apply(s, es[0]), es[1..][..n]) && es[n + 1] == es[1..][n]
  {
    assert es[..n + 1][0] == es[0] && es[..n + 1][1..] == es[1..][..n];
  }

  lemma FirstSavedLater(s: Stored, es: seq<Event>)
    requires es != [] && !Saves(s, es[0])
    ensures DecryptedFirst(s, es) <==> DecryptedFirst(Apply(s, es[0]), es[1..])
  {
    var s1 := Apply(s, es[0]);
    assert es[..0] == [];
    if n: nat :| FirstSaved(s, es, n) && es[n].Decryption? {
      assert n > 0;
      OneEarlier(s, es, n - 1);
      forall m: nat | m < n - 1
        ensures !Saves(Run(s1, es[1..][..m]), es[1..][m])
      {
        OneEarlier(s, es, m);
        assert !Saves(Run(s, es[..m + 1]), es[m + 1]);
      }
      assert FirstSaved(s1, es[1..], n - 1);
    }
    if n: nat :| FirstSaved(s1, es[1..], n) && es[1..][n].Decryption? {
      OneEarlier(s, es, n);
      forall m: nat | m < n + 1
        ensures !Saves(Run(s, es[..m]), es[m])
      {
        if m > 0 {
          OneEarlier(s, es, m - 1);
          assert !Saves(Run(s1, es[1..][..m - 1]), es[1..][m - 1]);
        }
      }
      assert FirstSaved(s, es, n + 1);
    }
  }

  lemma {:induction false} HistoryGrows(s: Stored, es: seq<Event>)
    ensures s.history <= Run(s, es).history
    decreases |es|
  {
    if es != [] {
      HistoryGrows(Apply(s, es[0]), es[1..]);
    }
  }

  // ---------------------------------------------------------------- the key is found

  /** A submission made with a managed form's current version finds, at any later time before the end of the
      key's grace period, one key row whose key is enabled and carries the public key the form had - provided
      no form is stamped twice within a minute and no key is disabled by hand. */
  lemma SubmissionFindsItsKey(config: Config, ts: seq<Runs.Timed>, us: seq<Runs.Timed>, clock: Time, f: nat)
    requires Runs.SweepOnly(ts + us) && Runs.NoLaterThan(ts + us, clock)
    requires Runs.FreshRun(config, Runs.Empty, ts + us)
    requires var s := Runs.Run(config, Runs.Empty, ts); f in s.forms && s.forms[f].managed
    ensures var s := Runs.Run(config, Runs.Empty, ts);
      var s' := Runs.Run(config, Runs.Empty, ts + us);
      var found := LookupKey(s', f, s.forms[f].version);
      && found.OneRow? && found.key < |s.keys| <= |s'.keys|
      && s.forms[f].publicKey == Some(s.keys[found.key].publicKey)
      && s'.keys[found.key].publicKey == s.keys[found.key].publicKey
      && ((s'.keys[found.key].graceEnd.None? || clock < s'.keys[found.key].graceEnd.value)
          ==> s'.keys[found.key].disabledAt.None?)
  {
    var s := Runs.Run(config, Runs.Empty, ts);
    var s' := Runs.Run(config, Runs.Empty, ts + us);
    Runs.ManagedFormsHaveAnUnrotatedKey(config, ts, f);
    var r :| Runs.CurrentRow(s, f, r);
    Runs.OldVersionsStayDecryptable(config, ts, us, clock, r);
    Runs.RunUniqueExactly(config, Runs.Empty, ts + us);
    var found := RowsOf(s', f, s.forms[f].version);
    assert r in found;
    forall q | q in found ensures q == r {
    }
    assert found == {r};
    Runs.RunAppend(config, Runs.Empty, ts, us);
    Runs.RunKeepsPublicKeys(config, s, us);
  }

  // ---------------------------------------------------------------- when a decryption succeeds

  /** The form is managed, or some row says that it was. */
  ghost predicate ManagedEver(t: State, f: nat) {
    (f in t.forms && t.forms[f].managed) || exists r :: r in t.rows && r.form == f
  }

  /** A row for the version that the submission was made with. */
  ghost predicate RowFor(t: State, s: Stored, r: XFormKey) {
    r in t.rows && r.form == s.form && r.version == s.version
  }

  ghost predicate NoRowFor(t: State, s: Stored) {
    forall r :: !RowFor(t, s, r)
  }

  ghost predicate OnlyRow(t: State, s: Stored, r: XFormKey) {
    RowFor(t, s, r) && forall q :: RowFor(t, s, q) ==> q == r
  }

  predicate IsEnabled(t: State, r: XFormKey) {
    r.key < |t.keys| ==> t.keys[r.key].disabledAt.None?
  }

  lemma LookupIs(t: State, s: Stored)
    ensures NoRowFor(t, s) <==> LookupKey(t, s.form, s.version).NoRow?
    ensures forall r :: OnlyRow(t, s, r) ==> LookupKey(t, s.form, s.version) == OneRow(r.key)
    ensures LookupKey(t, s.form, s.version).OneRow? ==> exists r :: OnlyRow(t, s, r)
  {
    var found := RowsOf(t, s.form, s.version);
    forall r ensures r in found <==> RowFor(t, s, r) {}
    forall r | OnlyRow(t, s, r)
      ensures found == {r}
    {
    }
    if r :| found == {r} {
      forall q | RowFor(t, s, q) ensures q == r { assert q in found; }
      assert r in found && OnlyRow(t, s, r);
    }
  }

  /** A submission is decrypted if and only if it is encrypted, its form is or was managed, exactly one row has its form
      and version, that row's key is not disabled, all media arrived and the files end complete. */
  lemma DecryptedExactly(s: Stored, w: World)
    ensures Decrypt(s, w).1 == None <==>
              && w.isEncrypted(s.xml) && ManagedEver(w.tables, s.form)
              && (exists r :: OnlyRow(w.tables, s, r) && IsEnabled(w.tables, r))
              && w.mediaReceived && w.ending == Complete
  {
    LookupIs(w.tables, s);
    if r :| OnlyRow(w.tables, s, r) && IsEnabled(w.tables, r) {
      assert LookupKey(w.tables, s.form, s.version) == OneRow(r.key);
    }
    if r :| OnlyRow(w.tables, s, r) {
      assert LookupKey(w.tables, s.form, s.version) == OneRow(r.key);
    }
  }

  /** The failure names the first condition that is not met. */
  lemma FailureNamesTheReason(s: Stored, w: World)
    ensures var failure := Decrypt(s, w).1;
      if !w.isEncrypted(s.xml) then failure == Some(NotEncrypted)
      else if !ManagedEver(w.tables, s.form) then failure == Some(Unmanaged)
      else if NoRowFor(w.tables, s) then failure == Some(KeyNotFound)
      else if forall r :: !OnlyRow(w.tables, s, r) then failure == Some(SeveralKeys)
      else if forall r :: OnlyRow(w.tables, s, r) ==> !IsEnabled(w.tables, r) then failure == Some(KeyDisabled)
      else if !w.mediaReceived then failure == Some(MediaMissing)
      else if w.ending == Invalid then failure == Some(InvalidSubmission)
      else if w.ending == Broken then failure == Some(Other)
      else failure == None
  {
    LookupIs(w.tables, s);
    if r :| OnlyRow(w.tables, s, r) {
      assert LookupKey(w.tables, s.form, s.version) == OneRow(r.key);
      assert forall q :: OnlyRow(w.tables, s, q) ==> q == r;
    }
  }

  /** The failures about the key, the media and the files are stored with the submission; the others are not. */
  lemma FailureIsStored(s: Stored, w: World)
    requires Decrypt(s, w).1.Some?
    ensures var (s', failure) := Decrypt(s, w);
      if failure.value in {KeyNotFound, KeyDisabled, MediaMissing, InvalidSubmission}
      then s' == s.(error := failure, status := Failed)
      else s' == s
  {}

  /** Once a key is disabled, no submission of a version that only that key has a row for is ever decrypted. */
  lemma DisabledKeyDecryptsNothing(config: Config, t: State, ts: seq<Runs.Timed>, s: Stored, w: World, r: XFormKey)
    requires RowFor(t, s, r) && r.key < |t.keys| && t.keys[r.key].disabledAt.Some?
    requires w.tables == Runs.Run(config, t, ts)
    ensures Decrypt(s, w).1 != None
  {
    Laws.DisabledForEver(config, t, ts, r.key);
    Runs.RunKeepsRows(config, t, ts);
    assert RowFor(w.tables, s, r) && !IsEnabled(w.tables, r);
    DecryptedExactly(s, w);
  }

  /** So when the sweep has disabled the key of a version, a submission made with it can no longer be decrypted. */
  lemma SweptVersionsStayEncrypted(config: Config, t: State, answers: nat -> bool, now: Time, us: seq<Runs.Timed>,
      s: Stored, w: World, r: XFormKey)
    requires RowFor(t, s, r) && r.key < |t.keys| && t.keys[r.key].disabledAt.None? && answers(r.key)
    requires t.keys[r.key].expiry.Some? && t.keys[r.key].expiry.value <= now
    requires t.keys[r.key].graceEnd.Some? && t.keys[r.key].graceEnd.value <= now
    requires w.tables == Runs.Run(config, t, [Runs.At(now, Runs.DisableSweep(answers))] + us)
    ensures Decrypt(s, w).1 != None
  {
    var sweep := Runs.At(now, Runs.DisableSweep(answers));
    var t1 := Runs.Apply(config, t, sweep);
    Laws.SweepDisablesExactly(t, answers, now, r.key);
    assert ([sweep] + us)[1..] == us;
    DisabledKeyDecryptsNothing(config, t1, us, s, w, r);
  }

  /** The name is "submission.xml", in small or capital letters. */
  predicate NamedSubmission(f: File) {
    && |f.name| == 14
    && forall i | 0 <= i < 14 :: f.name[i] == "submission.xml"[i] || f.name[i] == "SUBMISSION.XML"[i]
  }

  lemma NamedExactly(f: File)
    ensures IsSubmissionFile(f) <==> NamedSubmission(f)
  {
    if |f.name| == 14 {
      forall i | 0 <= i < 14
        ensures Lower(f.name[i]) == "submission.xml"[i]
                <==> f.name[i] == "submission.xml"[i] || f.name[i] == "SUBMISSION.XML"[i]
      {}
    }
  }

  predicate LastNamed(files: seq<File>, i: nat) {
    i < |files| && NamedSubmission(files[i]) && forall j | i < j < |files| :: !NamedSubmission(files[j])
  }

  /** After a decryption: the XML is that of the last file named as a submission, which makes the status a success;
      without one, XML and status stay. The attachments there were are no longer live. */
  lemma SuccessExactly(s: Stored, w: World)
    requires Decrypt(s, w).1 == None
    ensures var s' := Decrypt(s, w).0;
      && s'.form == s.form && s'.version == s.version && s'.error == s.error
      && (forall i: nat :: LastNamed(w.files, i) ==> s'.xml == w.files[i].data && s'.status == Success)
      && ((forall i | 0 <= i < |w.files| :: !NamedSubmission(w.files[i])) ==> s'.xml == s.xml && s'.status == s.status)
      && |s'.attachments| >= |s.attachments|
      && forall i | 0 <= i < |s.attachments| :: s'.attachments[i] == Attachment(s.attachments[i].file, false)
  {
    forall i | 0 <= i < |w.files|
      ensures IsSubmissionFile(w.files[i]) <==> NamedSubmission(w.files[i])
    {
      NamedExactly(w.files[i]);
    }
    DecryptAllOrNothing(s, w);
    forall i: nat | LastNamed(w.files, i)
      ensures LastSubmission(w.files) == i
    {}
  }
}
