/**
 When the managed-key operations act, when they refuse, and what they leave behind, on the tables themselves
 (onadata/libs/kms/tools.py); and what can happen to a form that has submissions.
 */
module KmsLaws {
  import opened Common
  import opened Kms
  import opened KmsRuns

  // ---------------------------------------------------------------- creating, disabling

  /** A key that is created is active and the organization's, and expires after the configured duration, if any. */
  lemma CreateExactly(config: Config, s: State, org: nat, publicKey: Option<string>, now: Time)
    ensures var (s', outcome) := Create(config, s, org, publicKey, now);
      && (outcome == Done <==> publicKey.Some?) && (outcome == Crashed <==> publicKey.None?)
      && s'.forms == s.forms && s'.rows == s.rows
      && (publicKey.None? ==> s'.keys == s.keys)
      && (publicKey.Some? ==>
            && |s'.keys| == |s.keys| + 1 && s'.keys[..|s.keys|] == s.keys
            && var key := s'.keys[|s.keys|];
            && key.org == org && key.publicKey == publicKey.value && key.active
            && (key.expiry.Some? <==> config.rotation.Some?)
            && (key.expiry.Some? ==> key.expiry.value - now == config.rotation.value)
            && key.graceEnd.None? && key.rotatedAt.None? && key.disabledAt.None?)
  {}

  /** Only a key that is not disabled yet can change, if the KMS answers; then it is inactive and dated. */
  lemma DisableExactly(s: State, k: nat, clientOk: bool, now: Time)
    requires k < |s.keys|
    ensures var (s', outcome) := Disable(s, k, clientOk, now);
      && s'.forms == s.forms && s'.rows == s.rows && |s'.keys| == |s.keys|
      && (forall i :: 0 <= i < |s.keys| && i != k ==> s'.keys[i] == s.keys[i])
      && (s' != s <==> s.keys[k].disabledAt.None? && clientOk)
      && (outcome == Crashed <==> s.keys[k].disabledAt.None? && !clientOk) && outcome != Refused
      && (s' != s ==>
            && !s'.keys[k].active && s'.keys[k].disabledAt == Some(now)
            && s'.keys[k].(active := s.keys[k].active, disabledAt := None) == s.keys[k])
  {
    if s.keys[k].disabledAt.None? && clientOk {
      assert Disable(s, k, clientOk, now).0.keys[k].disabledAt == Some(now);
    }
  }

  // ---------------------------------------------------------------- encrypting, and stopping

  predicate OldestActive(s: State, org: nat, k: nat) {
    && k < |s.keys| && s.keys[k].active && s.keys[k].org == org
    && forall i | 0 <= i < k :: !(s.keys[i].active && s.keys[i].org == org)
  }

  predicate HasActiveKey(s: State, org: nat) {
    exists k | 0 <= k < |s.keys| :: s.keys[k].active && s.keys[k].org == org
  }

  /** The form may be encrypted: not encrypted yet (or overridden), without submissions, owned by an organization with
      an active key. */
  predicate MayEncrypt(s: State, f: nat, override: bool)
    requires f in s.forms
  {
    && (override || !s.forms[f].encrypted) && s.forms[f].submissions == 0
    && s.forms[f].org.Some? && HasActiveKey(s, s.forms[f].org.value)
  }

  lemma OldestExists(s: State, org: nat) returns (k: nat)
    requires HasActiveKey(s, org)
    ensures OldestActive(s, org, k) && FirstActive(s.keys, org) == Some(k)
  {
    k := FirstActive(s.keys, org).value;
  }

  /** Encryption changes the tables if and only if the form may be encrypted and the row of the oldest active key and
      this minute is new; it is refused for any other reason than being encrypted already or that row. */
  lemma EncryptExactly(s: State, f: nat, override: bool, now: Time)
    requires f in s.forms
    ensures var (s', outcome) := Encrypt(s, f, override, now);
      && (s' != s <==>
            && MayEncrypt(s, f, override)
            && exists k :: OldestActive(s, s.forms[f].org.value, k) && XFormKey(f, k, Stamp(now / 60)) !in s.rows)
      && (outcome == Refused <==> (override || !s.forms[f].encrypted) && !MayEncrypt(s, f, override))
      && (outcome == Crashed <==> MayEncrypt(s, f, override) && s' == s)
  {
    var x, s' := s.forms[f], Encrypt(s, f, override, now).0;
    if MayEncrypt(s, f, override) {
      var k := OldestExists(s, x.org.value);
      assert forall i :: OldestActive(s, x.org.value, i) ==> i == k;
      if XFormKey(f, k, Stamp(now / 60)) !in s.rows {
        assert XFormKey(f, k, Stamp(now / 60)) in s'.rows;
      }
    }
  }

  /** What it changes: one form, which is encrypted with the oldest active key and stamped, and one row. */
  lemma EncryptChanges(s: State, f: nat, override: bool, now: Time, k: nat)
    requires f in s.forms && Encrypt(s, f, override, now).0 != s
    requires s.forms[f].org.Some? && OldestActive(s, s.forms[f].org.value, k)
    ensures var s' := Encrypt(s, f, override, now).0;
      && s'.keys == s.keys && s'.rows == s.rows + {XFormKey(f, k, Stamp(now / 60))}
      && s'.forms.Keys == s.forms.Keys
      && (forall g :: g in s.forms && g != f ==> s'.forms[g] == s.forms[g])
      && var x := s'.forms[f];
      && x.encrypted && x.managed && x.version == Stamp(now / 60) && x.publicKey == Some(s.keys[k].publicKey)
      && x.org == s.forms[f].org && x.submissions == s.forms[f].submissions
  {}

  predicate HasRowForVersion(s: State, f: nat)
    requires f in s.forms
  {
    exists r :: r in s.rows && r.form == f && r.version == s.forms[f].version
  }

  /** Encryption stops if and only if the form is encrypted, has no submissions and has a row for its version. */
  lemma StopEncryptingExactly(s: State, f: nat, now: Time)
    requires f in s.forms
    ensures var (s', outcome) := StopEncrypting(s, f, now); var x := s.forms[f];
      && (s' != s <==> x.encrypted && x.submissions == 0 && HasRowForVersion(s, f))
      && (outcome == Refused <==> x.encrypted && (x.submissions > 0 || !HasRowForVersion(s, f))) && outcome != Crashed
      && s'.keys == s.keys && s'.rows == s.rows && s'.forms.Keys == s.forms.Keys
      && (forall g :: g in s.forms && g != f ==> s'.forms[g] == s.forms[g])
      && (s' != s ==>
            && !s'.forms[f].encrypted && !s'.forms[f].managed && s'.forms[f].publicKey.None?
            && s'.forms[f].version == Stamp(now / 60)
            && s'.forms[f].org == x.org && s'.forms[f].submissions == x.submissions)
  {
    var s' := StopEncrypting(s, f, now).0;
    if s.forms[f].encrypted && s.forms[f].submissions == 0 && HasRowForVersion(s, f) {
      assert s'.forms[f].encrypted != s.forms[f].encrypted;
    }
  }

  // ---------------------------------------------------------------- rotating

  /** A rotation is refused for a disabled or rotated key; otherwise it happens if and only if the KMS gives a new key
      and the old one has an expiry date, and a rotation that does not happen leaves the tables alone. */
  lemma RotateExactly(config: Config, s: State, k: nat, publicKey: Option<string>, now: Time)
    requires k < |s.keys|
    ensures var (s', outcome) := Rotate(config, s, k, publicKey, now); var key := s.keys[k];
      && (outcome == Refused <==> key.disabledAt.Some? || key.rotatedAt.Some?)
      && (outcome == Done <==>
            key.disabledAt.None? && key.rotatedAt.None? && publicKey.Some? && key.expiry.Some?)
      && (outcome != Done ==> s' == s)
  {}

  /** A rotated key expires now at the latest, is graced from then on and no longer active; a key of the same
      organization is new, and each form that ever had a row for the old one gets a row for it. */
  lemma RotateChanges(config: Config, s: State, k: nat, publicKey: Option<string>, now: Time)
    requires k < |s.keys| && Rotate(config, s, k, publicKey, now).1 == Done
    ensures s.keys[k].expiry.Some? && publicKey.Some?
    ensures var s' := Rotate(config, s, k, publicKey, now).0; var n := |s.keys|;
      && |s'.keys| == n + 1 && (forall i :: 0 <= i < n && i != k ==> s'.keys[i] == s.keys[i])
      && (var before, key := s.keys[k], s'.keys[k];
          && key.expiry == Some(if before.expiry.value <= now then before.expiry.value else now)
          && key.graceEnd == Some(key.expiry.value + config.grace)
          && key.rotatedAt == Some(now) && !key.active && key.disabledAt == before.disabledAt
          && key.org == before.org && key.publicKey == before.publicKey)
      && s'.keys[n] == Create(config, s, s.keys[k].org, publicKey, now).0.keys[n]
      && (forall r :: r in s'.rows <==>
            || r in s.rows
            || (&& r.key == n && r.version == Stamp(now / 60) && r.form in s.forms
                && exists v :: XFormKey(r.form, k, v) in s.rows))
  {
    var s' := Rotate(config, s, k, publicKey, now).0;
    forall r | r in s'.rows && r !in s.rows
      ensures exists v :: XFormKey(r.form, k, v) in s.rows
    {
      var q :| q in s.rows && q.key == k && q.form == r.form;
      assert q == XFormKey(r.form, k, q.version);
    }
  }

  // ---------------------------------------------------------------- forms that have submissions

  function RowsFor(s: State, f: nat): set<XFormKey> {
    set r | r in s.rows && r.form == f
  }

  /** The form is as it was, but for new submissions, and has the same rows. */
  ghost predicate Kept(s: State, s': State, f: nat)
    requires f in s.forms
  {
    && f in s'.forms && s'.forms[f].submissions >= s.forms[f].submissions
    && s'.forms[f].(submissions := 0) == s.forms[f].(submissions := 0)
    && RowsFor(s', f) == RowsFor(s, f)
  }

  /** A key that the form has a row for was rotated in between. */
  ghost predicate KeyRotated(s: State, s': State, f: nat) {
    exists r :: r in s.rows && r.form == f && r.key < |s.keys| && RotatedBetween(s, s', r.key)
  }

  predicate RotatedBetween(s: State, s': State, k: nat)
    requires k < |s.keys|
  {
    s.keys[k].rotatedAt.None? && k < |s'.keys| && s'.keys[k].rotatedAt.Some?
  }

  /** Rotated once, rotated for ever. */
  ghost predicate StaysRotated(s: State, s': State) {
    && |s.keys| <= |s'.keys|
    && forall k :: 0 <= k < |s.keys| ==> s.keys[k].rotatedAt.Some? ==> s'.keys[k].rotatedAt == s.keys[k].rotatedAt
  }

  lemma RotateKeepsForm(config: Config, s: State, k: nat, publicKey: Option<string>, now: Time, f: nat)
    requires k < |s.keys| && f in s.forms && Integrity(s)
    ensures var s' := Rotate(config, s, k, publicKey, now).0;
      StaysRotated(s, s') && (Kept(s, s', f) || KeyRotated(s, s', f))
  {
    var (s', outcome) := Rotate(config, s, k, publicKey, now);
    if outcome == Done {
      if r :| r in s.rows && r.form == f && r.key == k {
        assert RotatedBetween(s, s', r.key);
      } else {
        assert f !in UsersOf(s, k);
        assert RowsFor(s', f) == RowsFor(s, f);
      }
    }
  }

  lemma {:induction false} RotateAllKeepsForm(config: Config, s: State, ks: seq<nat>, client: Client, now: Time, f: nat)
    requires f in s.forms && Integrity(s) && forall i :: 0 <= i < |ks| ==> ks[i] < |s.keys|
    ensures var s' := RotateAll(config, s, ks, client, now).0;
      StaysRotated(s, s') && (Kept(s, s', f) || KeyRotated(s, s', f))
    decreases |ks|
  {
    if ks != [] {
      var (s1, outcome) := Rotate(config, s, ks[0], client(|s.keys|), now);
      RotateKeepsForm(config, s, ks[0], client(|s.keys|), now, f);
      RotateKeepsIntegrity(config, s, ks[0], client(|s.keys|), now);
      if outcome != Crashed {
        RotateAllKeepsForm(config, s1, ks[1..], client, now, f);
        Later(s, s1, RotateAll(config, s1, ks[1..], client, now).0, f);
      }
    }
  }

  /** Two spans after each other. */
  lemma Later(s: State, s1: State, s2: State, f: nat)
    requires f in s.forms && f in s1.forms && StaysRotated(s, s1) && StaysRotated(s1, s2) && Integrity(s)
    requires Kept(s, s1, f) || KeyRotated(s, s1, f)
    requires Kept(s1, s2, f) || KeyRotated(s1, s2, f)
    ensures StaysRotated(s, s2) && (Kept(s, s2, f) || KeyRotated(s, s2, f))
  {
    if KeyRotated(s, s1, f) {
      var r :| r in s.rows && r.form == f && r.key < |s.keys| && RotatedBetween(s, s1, r.key);
      assert RotatedBetween(s, s2, r.key);
    } else if KeyRotated(s1, s2, f) {
      var r :| r in s1.rows && r.form == f && r.key < |s1.keys| && RotatedBetween(s1, s2, r.key);
      assert r in RowsFor(s1, f);
      assert RotatedBetween(s, s2, r.key);
    }
  }

  lemma EncryptKeepsForm(s: State, g: nat, override: bool, now: Time, f: nat)
    requires f in s.forms && g in s.forms && s.forms[f].submissions > 0
    ensures var s' := Encrypt(s, g, override, now).0; StaysRotated(s, s') && Kept(s, s', f)
  {
    EncryptExactly(s, g, override, now);
    var s' := Encrypt(s, g, override, now).0;
    if s' != s {
      var k := OldestExists(s, s.forms[g].org.value);
      EncryptChanges(s, g, override, now, k);
      assert RowsFor(s', f) == RowsFor(s, f);
    }
  }

  lemma StopKeepsForm(s: State, g: nat, now: Time, f: nat)
    requires f in s.forms && g in s.forms && s.forms[f].submissions > 0
    ensures var s' := StopEncrypting(s, g, now).0; StaysRotated(s, s') && Kept(s, s', f)
  {
    StopEncryptingExactly(s, g, now);
  }

  lemma StepKeepsForm(config: Config, s: State, t: Timed, f: nat)
    requires f in s.forms && s.forms[f].submissions > 0 && Good(config, s)
    ensures var s' := Apply(config, s, t); StaysRotated(s, s') && (Kept(s, s', f) || KeyRotated(s, s', f))
  {
    match t.event
    case EncryptForm(g, override) => if g in s.forms { EncryptKeepsForm(s, g, override, t.now, f); }
    case StopEncryptingForm(g) => if g in s.forms { StopKeepsForm(s, g, t.now, f); }
    case DisableKey(k, clientOk) => if k < |s.keys| { DisableExactly(s, k, clientOk, t.now); }
    case RotateKey(k, publicKey) => if k < |s.keys| { RotateKeepsForm(config, s, k, publicKey, t.now, f); }
    case RotateSweep(client) =>
      RotateAllKeepsForm(config, s, Positions(s.keys, key => DueForRotation(key, t.now)), client, t.now, f);
    case DisableSweep(answers) => DisableExpiredChanges(s, answers, t.now);
    case _ =>
  }

  /** In every run, a form that has submissions keeps its version, key and encryption until a key it has a row for is
      rotated. */
  lemma {:induction false} SubmissionsFreezeForms(config: Config, s: State, ts: seq<Timed>, f: nat)
    requires f in s.forms && s.forms[f].submissions > 0 && Good(config, s)
    ensures var s' := Run(config, s, ts); StaysRotated(s, s') && (Kept(s, s', f) || KeyRotated(s, s', f))
    decreases |ts|
  {
    if ts != [] {
      var s1 := Apply(config, s, ts[0]);
      StepKeepsForm(config, s, ts[0], f);
      ApplyKeepsGood(config, s, ts[0]);
      ApplyKeepsForms(config, s, ts[0], f);
      SubmissionsFreezeForms(config, s1, ts[1..], f);
      Later(s, s1, Run(config, s1, ts[1..]), f);
    }
  }

  /** Submissions are never taken away. */
  lemma ApplyKeepsForms(config: Config, s: State, t: Timed, f: nat)
    requires f in s.forms
    ensures f in Apply(config, s, t).forms && Apply(config, s, t).forms[f].submissions >= s.forms[f].submissions
  {
    match t.event
    case RotateSweep(client) =>
      RotateAllKeepsForms(config, s, Positions(s.keys, key => DueForRotation(key, t.now)), client, t.now, f);
    case DisableSweep(answers) => DisableExpiredChanges(s, answers, t.now);
    case _ =>
  }

  lemma {:induction false} RotateAllKeepsForms(config: Config, s: State, ks: seq<nat>, client: Client, now: Time,
      f: nat)
    requires f in s.forms && forall i :: 0 <= i < |ks| ==> ks[i] < |s.keys|
    ensures var s' := RotateAll(config, s, ks, client, now).0;
      f in s'.forms && s'.forms[f].submissions == s.forms[f].submissions
    decreases |ks|
  {
    if ks != [] {
      var (s1, outcome) := Rotate(config, s, ks[0], client(|s.keys|), now);
      if outcome != Crashed {
        RotateAllKeepsForms(config, s1, ks[1..], client, now, f);
      }
    }
  }

  // ---------------------------------------------------------------- disabled keys

  lemma {:induction false} RotateAllKeepsDisabled(config: Config, s: State, ks: seq<nat>, client: Client, now: Time,
      k: nat)
    requires k < |s.keys| && s.keys[k].disabledAt.Some? && forall i :: 0 <= i < |ks| ==> ks[i] < |s.keys|
    ensures RotateAll(config, s, ks, client, now).0.keys[k] == s.keys[k]
    decreases |ks|
  {
    if ks != [] {
      RotateExactly(config, s, ks[0], client(|s.keys|), now);
      var (s1, outcome) := Rotate(config, s, ks[0], client(|s.keys|), now);
      if outcome != Crashed {
        RotateAllKeepsDisabled(config, s1, ks[1..], client, now, k);
      }
    }
  }

  /** A disabled key stays as it is in every continuation. */
  lemma {:induction false} DisabledForEver(config: Config, s: State, ts: seq<Timed>, k: nat)
    requires k < |s.keys| && s.keys[k].disabledAt.Some?
    ensures k < |Run(config, s, ts).keys| && Run(config, s, ts).keys[k] == s.keys[k]
    decreases |ts|
  {
    if ts != [] {
      DisabledAfterStep(config, s, ts[0], k);
      DisabledForEver(config, Apply(config, s, ts[0]), ts[1..], k);
    }
  }

  lemma DisabledAfterStep(config: Config, s: State, t: Timed, k: nat)
    requires k < |s.keys| && s.keys[k].disabledAt.Some?
    ensures k < |Apply(config, s, t).keys| && Apply(config, s, t).keys[k] == s.keys[k]
  {
    match t.event
    case RotateSweep(client) =>
      RotateAllKeepsDisabled(config, s, Positions(s.keys, key => DueForRotation(key, t.now)), client, t.now, k);
    case DisableSweep(answers) => DisableExpiredChanges(s, answers, t.now);
    case _ =>
  }

  // ---------------------------------------------------------------- the sweeps

  /** The disabling sweep disables a key if and only if its expiry and its grace end are past, it is not disabled yet
      and the KMS answers; it changes nothing else. */
  lemma SweepDisablesExactly(s: State, clientOk: nat -> bool, now: Time, k: nat)
    requires k < |s.keys|
    ensures var s' := DisableExpired(s, clientOk, now); var key := s.keys[k];
      && s'.forms == s.forms && s'.rows == s.rows && |s'.keys| == |s.keys|
      && (s'.keys[k] != key <==>
            && key.expiry.Some? && key.expiry.value <= now && key.graceEnd.Some? && key.graceEnd.value <= now
            && key.disabledAt.None? && clientOk(k))
      && (s'.keys[k] != key ==> s'.keys[k] == key.(disabledAt := Some(now), active := false))
  {
    DisableExpiredChanges(s, clientOk, now);
  }

  /** A rotating sweep that finishes rotates a key if and only if its expiry is past and it is neither disabled nor
      rotated; it retires the key and leaves the other keys as they are. */
  lemma SweepRotatesExactly(config: Config, s: State, client: Client, now: Time, k: nat)
    requires k < |s.keys| && RotateExpired(config, s, client, now).1 == Done
    ensures var s' := RotateExpired(config, s, client, now).0; var key := s.keys[k];
      && k < |s'.keys|
      && (s'.keys[k] != key <==>
            key.expiry.Some? && key.expiry.value <= now && key.disabledAt.None? && key.rotatedAt.None?)
      && (s'.keys[k] != key ==>
            && s'.keys[k].rotatedAt == Some(now) && !s'.keys[k].active
            && s'.keys[k].expiry == key.expiry && s'.keys[k].graceEnd == Some(key.expiry.value + config.grace))
  {
    RotateExpiredChanges(config, s, client, now, k);
  }
}
