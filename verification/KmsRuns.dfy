/** What holds in every run of the managed-key operations. */
module KmsRuns {
  import opened Common
  import opened Kms

  // ---------------------------------------------------------------- runs

  datatype Event =
    | Publish(f: nat, x: XForm)                       // a new form, not yet managed
    | Submit(f: nat)                                  // a submission arrives
    | CreateKey(org: nat, publicKey: Option<string>)
    | EncryptForm(f: nat, override: bool)
    | StopEncryptingForm(f: nat)
    | RotateKey(k: nat, publicKey: Option<string>)
    | DisableKey(k: nat, clientOk: bool)              // by hand
    | RotateSweep(client: Client)
    | DisableSweep(answers: nat -> bool)

  datatype Timed = At(now: Time, event: Event)

  function Apply(config: Config, s: State, t: Timed): State {
    match t.event
    case Publish(f, x) => if f in s.forms || x.managed then s else s.(forms := s.forms[f := x])
    case Submit(f) => if f !in s.forms then s else
      s.(forms := s.forms[f := s.forms[f].(submissions := s.forms[f].submissions + 1)])
    case CreateKey(org, publicKey) => Create(config, s, org, publicKey, t.now).0
    case EncryptForm(f, override) => if f in s.forms then Encrypt(s, f, override, t.now).0 else s
    case StopEncryptingForm(f) => if f in s.forms then StopEncrypting(s, f, t.now).0 else s
    case RotateKey(k, publicKey) => if k < |s.keys| then Rotate(config, s, k, publicKey, t.now).0 else s
    case DisableKey(k, clientOk) => if k < |s.keys| then Disable(s, k, clientOk, t.now).0 else s
    case RotateSweep(client) => RotateExpired(config, s, client, t.now).0
    case DisableSweep(answers) => DisableExpired(s, answers, t.now)
  }

  function Run(config: Config, s: State, ts: seq<Timed>): State
    decreases |ts|
  {
    if ts == [] then s else Run(config, Apply(config, s, ts[0]), ts[1..])
  }

  const Empty := State([], map[], {})

  // ---------------------------------------------------------------- the invariant

  /** Active exactly when neither rotated nor disabled; a grace end exactly when rotated, which is expiry plus grace. */
  ghost predicate KeyOk(config: Config, key: KmsKey) {
    && (key.active <==> key.rotatedAt.None? && key.disabledAt.None?)
    && (key.graceEnd.Some? <==> key.rotatedAt.Some?)
    && (key.graceEnd.Some? ==> key.expiry.Some? && key.graceEnd.value == key.expiry.value + config.grace
                               && key.expiry.value <= key.rotatedAt.value)
  }

  /** The row that names the key a managed form is currently encrypted with. */
  ghost predicate CurrentRow(s: State, f: nat, r: XFormKey)
    requires f in s.forms
  {
    && r in s.rows && r.form == f && r.version == s.forms[f].version && r.key < |s.keys|
    && s.forms[f].publicKey == Some(s.keys[r.key].publicKey)
    && s.keys[r.key].rotatedAt.None?
  }

  ghost predicate FormOk(s: State, f: nat)
    requires f in s.forms
  {
    s.forms[f].managed ==> s.forms[f].encrypted && exists r :: CurrentRow(s, f, r)
  }

  ghost predicate Good(config: Config, s: State) {
    && Integrity(s)
    && (forall k :: 0 <= k < |s.keys| ==> KeyOk(config, s.keys[k]))
    && (forall f :: f in s.forms ==> FormOk(s, f))
  }

  // ---------------------------------------------------------------- one step keeps the invariant

  lemma CreateKeepsGood(config: Config, s: State, org: nat, publicKey: Option<string>, now: Time)
    requires Good(config, s)
    ensures Good(config, Create(config, s, org, publicKey, now).0)
  {
    var s' := Create(config, s, org, publicKey, now).0;
    forall f | f in s'.forms && s'.forms[f].managed
      ensures FormOk(s', f)
    {
      assert FormOk(s, f);
      var r :| CurrentRow(s, f, r);
      assert CurrentRow(s', f, r);
    }
  }

  lemma EncryptAllKeepsGood(config: Config, s: State, fs: set<nat>, k: nat, now: Time)
    requires Good(config, s) && k < |s.keys| && s.keys[k].rotatedAt.None? && fs <= s.forms.Keys
    ensures Good(config, EncryptAll(s, fs, k, now))
  {
    var s' := EncryptAll(s, fs, k, now);
    forall f | f in s'.forms && s'.forms[f].managed
      ensures FormOk(s', f)
    {
      if f in fs {
        assert CurrentRow(s', f, XFormKey(f, k, StampOf(now)));
      } else {
        assert FormOk(s, f);
        var r :| CurrentRow(s, f, r);
        assert CurrentRow(s', f, r);
      }
    }
  }

  /** Replacing one key: its rotation date stays, or every managed form has a current row for another key. */
  lemma SetKeyKeepsGood(config: Config, s: State, k: nat, key: KmsKey)
    requires Good(config, s) && k < |s.keys| && KeyOk(config, key)
    requires key.publicKey == s.keys[k].publicKey
    requires key.rotatedAt == s.keys[k].rotatedAt
             || forall f :: f in s.forms && s.forms[f].managed ==> exists r :: CurrentRow(s, f, r) && r.key != k
    ensures Good(config, s.(keys := s.keys[k := key]))
  {
    var s' := s.(keys := s.keys[k := key]);
    forall f | f in s'.forms && s'.forms[f].managed
      ensures FormOk(s', f)
    {
      assert FormOk(s, f);
      var r :| CurrentRow(s, f, r) && (key.rotatedAt == s.keys[k].rotatedAt || r.key != k);
      assert CurrentRow(s', f, r);
    }
  }

  lemma DisableKeepsGood(config: Config, s: State, k: nat, clientOk: bool, now: Time)
    requires Good(config, s) && k < |s.keys|
    ensures Good(config, Disable(s, k, clientOk, now).0)
  {
    if s.keys[k].disabledAt.None? && clientOk {
      SetKeyKeepsGood(config, s, k, s.keys[k].(disabledAt := Some(now), active := false));
    }
  }

  lemma RotateKeepsGood(config: Config, s: State, k: nat, publicKey: Option<string>, now: Time)
    requires Good(config, s) && k < |s.keys|
    ensures Good(config, Rotate(config, s, k, publicKey, now).0)
  {
    var key := s.keys[k];
    if Rotate(config, s, k, publicKey, now).1 == Done {
      var fs, k' := UsersOf(s, k), |s.keys|;
      CreateKeepsGood(config, s, key.org, publicKey, now);
      var s1 := Create(config, s, key.org, publicKey, now).0;
      EncryptAllKeepsGood(config, s1, fs, k', now);
      var s2 := EncryptAll(s1, fs, k', now);
      forall f | f in s2.forms && s2.forms[f].managed
        ensures exists r :: CurrentRow(s2, f, r) && r.key != k
      {
        if f in fs {
          assert CurrentRow(s2, f, XFormKey(f, k', StampOf(now)));
        } else {
          assert FormOk(s, f);
          var r :| CurrentRow(s, f, r);
          assert CurrentRow(s2, f, r);
        }
      }
      SetKeyKeepsGood(config, s2, k, Retired(config, key, now));
    }
  }

  lemma EncryptKeepsGood(config: Config, s: State, f: nat, override: bool, now: Time)
    requires Good(config, s) && f in s.forms
    ensures Good(config, Encrypt(s, f, override, now).0)
  {
    var x := s.forms[f];
    if x.org.Some? {
      var k := FirstActive(s.keys, x.org.value);
      if k.Some? {
        EncryptAllKeepsGood(config, s, {f}, k.value, now);
      }
    }
  }

  /** Changing a form so that it is unmanaged, or keeping what FormOk reads, keeps the invariant. */
  lemma SetFormKeepsGood(config: Config, s: State, f: nat, x: XForm)
    requires Good(config, s)
    requires !x.managed || (f in s.forms && x == s.forms[f].(submissions := x.submissions))
    ensures Good(config, s.(forms := s.forms[f := x]))
  {
    var s' := s.(forms := s.forms[f := x]);
    forall g | g in s'.forms && s'.forms[g].managed
      ensures FormOk(s', g)
    {
      assert FormOk(s, g);
      var r :| CurrentRow(s, g, r);
      assert CurrentRow(s', g, r);
    }
  }

  lemma {:induction false} RotateAllKeepsGood(config: Config, s: State, ks: seq<nat>, client: Client, now: Time)
    requires Good(config, s) && forall i :: 0 <= i < |ks| ==> ks[i] < |s.keys|
    ensures Good(config, RotateAll(config, s, ks, client, now).0)
    decreases |ks|
  {
    if ks != [] {
      RotateKeepsGood(config, s, ks[0], client(|s.keys|), now);
      var (s1, outcome) := Rotate(config, s, ks[0], client(|s.keys|), now);
      if outcome != Crashed {
        RotateAllKeepsGood(config, s1, ks[1..], client, now);
      }
    }
  }

  lemma {:induction false} DisableAllKeepsGood(config: Config, s: State, ks: seq<nat>, clientOk: nat -> bool, now: Time)
    requires Good(config, s) && forall i :: 0 <= i < |ks| ==> ks[i] < |s.keys|
    ensures Good(config, DisableAll(s, ks, clientOk, now))
    decreases |ks|
  {
    if ks != [] {
      DisableKeepsGood(config, s, ks[0], clientOk(ks[0]), now);
      DisableAllKeepsGood(config, Disable(s, ks[0], clientOk(ks[0]), now).0, ks[1..], clientOk, now);
    }
  }

  lemma ApplyKeepsGood(config: Config, s: State, t: Timed)
    requires Good(config, s)
    ensures Good(config, Apply(config, s, t))
  {
    match t.event
    case Publish(f, x) => if !x.managed { SetFormKeepsGood(config, s, f, x); }
    case Submit(f) =>
      if f in s.forms {
        SetFormKeepsGood(config, s, f, s.forms[f].(submissions := s.forms[f].submissions + 1));
      }
    case CreateKey(org, publicKey) => CreateKeepsGood(config, s, org, publicKey, t.now);
    case EncryptForm(f, override) => if f in s.forms { EncryptKeepsGood(config, s, f, override, t.now); }
    case StopEncryptingForm(f) =>
      if f in s.forms {
        var x := s.forms[f].(encrypted := false, managed := false, version := StampOf(t.now), publicKey := None);
        SetFormKeepsGood(config, s, f, x);
      }
    case RotateKey(k, publicKey) => if k < |s.keys| { RotateKeepsGood(config, s, k, publicKey, t.now); }
    case DisableKey(k, clientOk) => if k < |s.keys| { DisableKeepsGood(config, s, k, clientOk, t.now); }
    case RotateSweep(client) =>
      RotateAllKeepsGood(config, s, Positions(s.keys, key => DueForRotation(key, t.now)), client, t.now);
    case DisableSweep(answers) =>
      DisableAllKeepsGood(config, s, Positions(s.keys, key => DueForDisabling(key, t.now)), answers, t.now);
  }

  /** Every reachable state is good. */
  lemma {:induction false} RunKeepsGood(config: Config, s: State, ts: seq<Timed>)
    requires Good(config, s)
    ensures Good(config, Run(config, s, ts))
    decreases |ts|
  {
    if ts != [] {
      ApplyKeepsGood(config, s, ts[0]);
      RunKeepsGood(config, Apply(config, s, ts[0]), ts[1..]);
    }
  }

  /** In every run a managed form has a row for its current version, whose key carries the form's
      public key and was never rotated. */
  lemma ManagedFormsHaveAnUnrotatedKey(config: Config, ts: seq<Timed>, f: nat)
    requires var s := Run(config, Empty, ts); f in s.forms && s.forms[f].managed
    ensures var s := Run(config, Empty, ts); s.forms[f].encrypted && exists r :: CurrentRow(s, f, r)
  {
    RunKeepsGood(config, Empty, ts);
    assert FormOk(Run(config, Empty, ts), f);
  }

  // ---------------------------------------------------------------- keys disabled by the sweep only

  predicate SweepOnly(ts: seq<Timed>) {
    forall i :: 0 <= i < |ts| ==> !ts[i].event.DisableKey?
  }

  predicate NoLaterThan(ts: seq<Timed>, now: Time) {
    forall i :: 0 <= i < |ts| ==> ts[i].now <= now
  }

  /** Disabled only past the grace end, and no later than the clock. */
  ghost predicate Swept(s: State, now: Time) {
    forall k :: 0 <= k < |s.keys| && s.keys[k].disabledAt.Some? ==>
      s.keys[k].graceEnd.Some? && s.keys[k].graceEnd.value <= s.keys[k].disabledAt.value <= now
  }

  lemma RotateKeepsSwept(config: Config, s: State, k: nat, publicKey: Option<string>, now: Time, clock: Time)
    requires k < |s.keys| && Swept(s, clock)
    ensures Swept(Rotate(config, s, k, publicKey, now).0, clock)
  {}

  lemma {:induction false} RotateAllKeepsSwept(config: Config, s: State, ks: seq<nat>, client: Client, now: Time,
      clock: Time)
    requires Swept(s, clock) && forall i :: 0 <= i < |ks| ==> ks[i] < |s.keys|
    ensures Swept(RotateAll(config, s, ks, client, now).0, clock)
    decreases |ks|
  {
    if ks != [] {
      RotateKeepsSwept(config, s, ks[0], client(|s.keys|), now, clock);
      var (s1, outcome) := Rotate(config, s, ks[0], client(|s.keys|), now);
      if outcome != Crashed {
        RotateAllKeepsSwept(config, s1, ks[1..], client, now, clock);
      }
    }
  }

  /** The disabling sweep disables exactly the due keys for which the KMS answered, and changes nothing else. */
  lemma {:induction false} DisableAllChanges(s: State, ks: seq<nat>, clientOk: nat -> bool, now: Time)
    requires NoDuplicates(ks) && forall i :: 0 <= i < |ks| ==> ks[i] < |s.keys| && s.keys[ks[i]].disabledAt.None?
    ensures var s' := DisableAll(s, ks, clientOk, now);
      && s'.forms == s.forms && s'.rows == s.rows && |s'.keys| == |s.keys|
      && forall k :: 0 <= k < |s.keys| ==>
           s'.keys[k] == if k in ks && clientOk(k) then s.keys[k].(disabledAt := Some(now), active := false)
               else s.keys[k]
    decreases |ks|
  {
    if ks != [] {
      var s1 := Disable(s, ks[0], clientOk(ks[0]), now).0;
      DisableAllChanges(s1, ks[1..], clientOk, now);
    }
  }

  lemma DisableExpiredChanges(s: State, clientOk: nat -> bool, now: Time)
    ensures var s' := DisableExpired(s, clientOk, now);
      && s'.forms == s.forms && s'.rows == s.rows && |s'.keys| == |s.keys|
      && forall k :: 0 <= k < |s.keys| ==>
           s'.keys[k] == if DueForDisabling(s.keys[k], now) && clientOk(k)
                         then s.keys[k].(disabledAt := Some(now), active := false) else s.keys[k]
  {
    DisableAllChanges(s, Positions(s.keys, key => DueForDisabling(key, now)), clientOk, now);
  }

  lemma ApplyKeepsSwept(config: Config, s: State, t: Timed, clock: Time)
    requires Swept(s, clock) && t.now <= clock && !t.event.DisableKey?
    ensures Swept(Apply(config, s, t), clock)
  {
    match t.event
    case RotateKey(k, publicKey) => if k < |s.keys| { RotateKeepsSwept(config, s, k, publicKey, t.now, clock); }
    case RotateSweep(client) =>
      RotateAllKeepsSwept(config, s, Positions(s.keys, key => DueForRotation(key, t.now)), client, t.now, clock);
    case DisableSweep(answers) => DisableExpiredChanges(s, answers, t.now);
    case _ =>
  }

  lemma {:induction false} RunKeepsSwept(config: Config, s: State, ts: seq<Timed>, clock: Time)
    requires Swept(s, clock) && NoLaterThan(ts, clock) && SweepOnly(ts)
    ensures Swept(Run(config, s, ts), clock)
    decreases |ts|
  {
    if ts != [] {
      ApplyKeepsSwept(config, s, ts[0], clock);
      RunKeepsSwept(config, Apply(config, s, ts[0]), ts[1..], clock);
    }
  }

  /** With no key disabled by hand, the key a managed form is encrypted with is active. */
  lemma ManagedFormsHaveAnActiveKey(config: Config, ts: seq<Timed>, f: nat)
    requires SweepOnly(ts)
    requires var s := Run(config, Empty, ts); f in s.forms && s.forms[f].managed
    ensures var s := Run(config, Empty, ts); exists r :: CurrentRow(s, f, r) && s.keys[r.key].active
  {
    var s := Run(config, Empty, ts);
    ManagedFormsHaveAnUnrotatedKey(config, ts, f);
    var r :| CurrentRow(s, f, r);
    RunKeepsGood(config, Empty, ts);
    assert KeyOk(config, s.keys[r.key]);
    var clock := LastInstant(ts);
    RunKeepsSwept(config, Empty, ts, clock);
  }

  lemma LastInstant(ts: seq<Timed>) returns (clock: Time)
    ensures NoLaterThan(ts, clock)
  {
    if ts == [] {
      clock := 0;
    } else {
      clock := LastInstant(ts[1..]);
      clock := if clock < ts[0].now then ts[0].now else clock;
      forall i | 0 <= i < |ts| ensures ts[i].now <= clock {
        assert i > 0 ==> ts[i] == ts[1..][i - 1];
      }
    }
  }

  /** With no key disabled by hand, a disabled key was rotated, and disabled no sooner than expiry plus grace. */
  lemma DisabledKeysArePastGrace(config: Config, ts: seq<Timed>, clock: Time, k: nat)
    requires SweepOnly(ts) && NoLaterThan(ts, clock)
    requires var s := Run(config, Empty, ts); k < |s.keys| && s.keys[k].disabledAt.Some?
    ensures var key := Run(config, Empty, ts).keys[k];
      && key.rotatedAt.Some? && key.expiry.Some?
      && key.expiry.value + config.grace <= key.disabledAt.value <= clock
  {
    RunKeepsGood(config, Empty, ts);
    RunKeepsSwept(config, Empty, ts, clock);
    assert KeyOk(config, Run(config, Empty, ts).keys[k]);
  }

  // ---------------------------------------------------------------- old versions

  lemma {:induction false} RotateAllGrows(config: Config, s: State, ks: seq<nat>, client: Client, now: Time)
    requires forall i :: 0 <= i < |ks| ==> ks[i] < |s.keys|
    ensures s.rows <= RotateAll(config, s, ks, client, now).0.rows
    decreases |ks|
  {
    if ks != [] {
      var (s1, outcome) := Rotate(config, s, ks[0], client(|s.keys|), now);
      if outcome != Crashed {
        RotateAllGrows(config, s1, ks[1..], client, now);
      }
    }
  }

  lemma ApplyKeepsRows(config: Config, s: State, t: Timed)
    ensures s.rows <= Apply(config, s, t).rows
  {
    match t.event
    case RotateSweep(client) =>
      RotateAllGrows(config, s, Positions(s.keys, key => DueForRotation(key, t.now)), client, t.now);
    case DisableSweep(answers) => DisableExpiredChanges(s, answers, t.now);
    case _ =>
  }

  lemma {:induction false} RunKeepsRows(config: Config, s: State, ts: seq<Timed>)
    ensures s.rows <= Run(config, s, ts).rows
    decreases |ts|
  {
    if ts != [] {
      ApplyKeepsRows(config, s, ts[0]);
      RunKeepsRows(config, Apply(config, s, ts[0]), ts[1..]);
    }
  }

  lemma {:induction false} RunAppend(config: Config, s: State, ts: seq<Timed>, us: seq<Timed>)
    ensures Run(config, s, ts + us) == Run(config, Run(config, s, ts), us)
    decreases |ts|
  {
    if ts == [] {
      assert ts + us == us;
    } else {
      assert (ts + us)[1..] == ts[1..] + us;
      RunAppend(config, Apply(config, s, ts[0]), ts[1..], us);
    }
  }

  /** The row that a submission's version names is never lost, and (with no key disabled by hand) its key
      stays enabled until the end of the grace period of its rotation. */
  lemma OldVersionsStayDecryptable(config: Config, ts: seq<Timed>, us: seq<Timed>, clock: Time, r: XFormKey)
    requires SweepOnly(ts + us) && NoLaterThan(ts + us, clock)
    requires r in Run(config, Empty, ts).rows
    ensures var s := Run(config, Empty, ts + us);
      && r in s.rows && r.key < |s.keys|
      && ((s.keys[r.key].graceEnd.None? || clock < s.keys[r.key].graceEnd.value) ==> s.keys[r.key].disabledAt.None?)
  {
    RunAppend(config, Empty, ts, us);
    RunKeepsRows(config, Run(config, Empty, ts), us);
    RunKeepsGood(config, Empty, ts + us);
    RunKeepsSwept(config, Empty, ts + us, clock);
  }

  /** Keys are never removed, and a key keeps its public key and its organization. */
  ghost predicate KeysExtend(s: State, s': State) {
    && |s.keys| <= |s'.keys|
    && forall k :: 0 <= k < |s.keys| ==> s'.keys[k].publicKey == s.keys[k].publicKey && s'.keys[k].org == s.keys[k].org
  }

  lemma {:induction false} RotateAllKeepsPublicKeys(config: Config, s: State, ks: seq<nat>, client: Client, now: Time)
    requires forall i :: 0 <= i < |ks| ==> ks[i] < |s.keys|
    ensures KeysExtend(s, RotateAll(config, s, ks, client, now).0)
    decreases |ks|
  {
    if ks != [] {
      var (s1, outcome) := Rotate(config, s, ks[0], client(|s.keys|), now);
      if outcome != Crashed {
        RotateAllKeepsPublicKeys(config, s1, ks[1..], client, now);
      }
    }
  }

  lemma ApplyKeepsPublicKeys(config: Config, s: State, t: Timed)
    ensures KeysExtend(s, Apply(config, s, t))
  {
    match t.event
    case RotateSweep(client) =>
      RotateAllKeepsPublicKeys(config, s, Positions(s.keys, key => DueForRotation(key, t.now)), client, t.now);
    case DisableSweep(answers) => DisableExpiredChanges(s, answers, t.now);
    case _ =>
  }

  lemma {:induction false} RunKeepsPublicKeys(config: Config, s: State, ts: seq<Timed>)
    ensures KeysExtend(s, Run(config, s, ts))
    decreases |ts|
  {
    if ts != [] {
      ApplyKeepsPublicKeys(config, s, ts[0]);
      RunKeepsPublicKeys(config, Apply(config, s, ts[0]), ts[1..]);
    }
  }

  // ---------------------------------------------------------------- what one rotation does

  function ActiveKeys(keys: seq<KmsKey>, org: nat): set<nat> {
    set k | 0 <= k < |keys| && keys[k].active && keys[k].org == org
  }

  lemma SwapActiveKey(keys: seq<KmsKey>, k: nat, retired: KmsKey, added: KmsKey, org: nat)
    requires k < |keys| && keys[k].active && !retired.active && added.active && added.org == keys[k].org
    ensures |ActiveKeys((keys + [added])[k := retired], org)| == |ActiveKeys(keys, org)|
  {
    var keys' := (keys + [added])[k := retired];
    var before, after := ActiveKeys(keys, org), ActiveKeys(keys', org);
    forall i | 0 <= i < |keys'|
      ensures i in after <==> if i == |keys| then added.org == org else i in before && i != k
    {
      assert keys'[i] == if i == k then retired else if i == |keys| then added else keys[i];
    }
    if keys[k].org == org {
      assert after == (before - {k}) + {|keys|};
    } else {
      assert after == before;
    }
  }

  /** A rotation keeps every organization's number of active keys. */
  lemma RotateKeepsActiveCount(config: Config, s: State, k: nat, publicKey: Option<string>, now: Time, org: nat)
    requires Good(config, s) && k < |s.keys|
    ensures |ActiveKeys(Rotate(config, s, k, publicKey, now).0.keys, org)| == |ActiveKeys(s.keys, org)|
  {
    var key := s.keys[k];
    if Rotate(config, s, k, publicKey, now).1 == Done {
      assert KeyOk(config, key);
      SwapActiveKey(s.keys, k, Retired(config, key, now), NewKey(config, key.org, publicKey.value, now), org);
    }
  }

  /** A rotation changes exactly the forms that ever had a row for the key - also those whose encryption
      was disabled since, and those that have submissions. */
  lemma RotateReencryptsExactlyTheUsers(config: Config, s: State, k: nat, publicKey: Option<string>, now: Time, f: nat)
    requires k < |s.keys| && f in s.forms && Rotate(config, s, k, publicKey, now).1 == Done
    ensures var s' := Rotate(config, s, k, publicKey, now).0;
      && s'.forms.Keys == s.forms.Keys
      && s'.forms[f].submissions == s.forms[f].submissions && s'.forms[f].org == s.forms[f].org
      && (if exists v :: XFormKey(f, k, v) in s.rows
          then s'.forms[f].managed && s'.forms[f].encrypted && s'.forms[f].version == StampOf(now)
               && s'.forms[f].publicKey == publicKey && XFormKey(f, |s.keys|, StampOf(now)) in s'.rows
          else s'.forms[f] == s.forms[f])
  {}

  /** The rotating sweep: it finishes exactly when the KMS answers every request; then each due key is
      retired, no other key changes, and as many keys were created. */
  lemma {:induction false} RotateAllChanges(config: Config, s: State, ks: seq<nat>, client: Client, now: Time)
    requires NoDuplicates(ks)
    requires forall i :: 0 <= i < |ks| ==> ks[i] < |s.keys| && DueForRotation(s.keys[ks[i]], now)
    ensures var (s', outcome) := RotateAll(config, s, ks, client, now);
      && (outcome == Done <==> forall k | |s.keys| <= k < |s.keys| + |ks| :: client(k).Some?)
      && (outcome == Done ==>
            && |s'.keys| == |s.keys| + |ks|
            && (forall i :: 0 <= i < |ks| ==>
                  s.keys[ks[i]].expiry.Some? && s'.keys[ks[i]] == Retired(config, s.keys[ks[i]], now))
            && (forall k :: 0 <= k < |s.keys| && k !in ks ==> s'.keys[k] == s.keys[k]))
    decreases |ks|
  {
    if ks != [] {
      var (s1, outcome) := Rotate(config, s, ks[0], client(|s.keys|), now);
      if outcome != Crashed {
        RotateAllChanges(config, s1, ks[1..], client, now);
        var (s', last) := RotateAll(config, s1, ks[1..], client, now);
        assert ks[0] !in ks[1..];
        forall i | 0 <= i < |ks| && last == Done
          ensures s'.keys[ks[i]] == Retired(config, s.keys[ks[i]], now)
        {
          if i > 0 { assert ks[i] == ks[1..][i - 1]; }
        }
      }
    }
  }

  lemma RotateExpiredChanges(config: Config, s: State, client: Client, now: Time, k: nat)
    requires k < |s.keys| && RotateExpired(config, s, client, now).1 == Done
    ensures var s' := RotateExpired(config, s, client, now).0;
      && k < |s'.keys|
      && s'.keys[k] == if DueForRotation(s.keys[k], now) then Retired(config, s.keys[k], now) else s.keys[k]
  {
    var due := Positions(s.keys, key => DueForRotation(key, now));
    forall i | 0 <= i < |due| ensures DueForRotation(s.keys[due[i]], now) {
      assert due[i] in due;
    }
    RotateAllChanges(config, s, due, client, now);
    assert k in due <==> DueForRotation(s.keys[k], now);
  }

  // ---------------------------------------------------------------- no expiry, no rotation

  ghost predicate NeverExpires(s: State) {
    forall k :: 0 <= k < |s.keys| ==> s.keys[k].expiry.None? && s.keys[k].rotatedAt.None?
  }

  lemma {:induction false} NoPositions(keys: seq<KmsKey>, test: KmsKey -> bool)
    requires forall k :: 0 <= k < |keys| ==> !test(keys[k])
    ensures Positions(keys, test) == []
  {
    if keys != [] {
      NoPositions(keys[..|keys| - 1], test);
    }
  }

  lemma ApplyKeepsNeverExpires(config: Config, s: State, t: Timed)
    requires config.rotation.None? && NeverExpires(s)
    ensures NeverExpires(Apply(config, s, t))
  {
    match t.event
    case RotateSweep(client) =>
      var due := Positions(s.keys, key => DueForRotation(key, t.now));
      NoPositions(s.keys, key => DueForRotation(key, t.now));
      assert due == [];
    case DisableSweep(answers) => DisableExpiredChanges(s, answers, t.now);
    case _ =>
  }

  /** Without a configured rotation duration no key can ever be rotated, not even by hand. */
  lemma {:induction false} NoDurationNoRotation(config: Config, s: State, ts: seq<Timed>)
    requires config.rotation.None? && NeverExpires(s)
    ensures NeverExpires(Run(config, s, ts))
    decreases |ts|
  {
    if ts != [] {
      ApplyKeepsNeverExpires(config, s, ts[0]);
      NoDurationNoRotation(config, Apply(config, s, ts[0]), ts[1..]);
    }
  }

  // ---------------------------------------------------------------- one row per form and version

  /** What looking a submission's key up by form and version relies on. */
  ghost predicate UniqueVersions(s: State) {
    forall r, q :: r in s.rows && q in s.rows && r.form == q.form && r.version == q.version ==> r == q
  }

  /** The form was already stamped within this minute. */
  predicate Stamped(s: State, f: nat, now: Time) {
    exists r :: r in s.rows && r.form == f && r.version == StampOf(now)
  }

  predicate FreshRotation(config: Config, s: State, k: nat, publicKey: Option<string>, now: Time)
    requires k < |s.keys|
  {
    Rotate(config, s, k, publicKey, now).1 == Done ==> forall f | f in UsersOf(s, k) :: !Stamped(s, f, now)
  }

  predicate FreshRotations(config: Config, s: State, ks: seq<nat>, client: Client, now: Time)
    requires forall i :: 0 <= i < |ks| ==> ks[i] < |s.keys|
    decreases |ks|
  {
    if ks == [] then true
    else
      var (s1, outcome) := Rotate(config, s, ks[0], client(|s.keys|), now);
      && FreshRotation(config, s, ks[0], client(|s.keys|), now)
      && (outcome != Crashed ==> FreshRotations(config, s1, ks[1..], client, now))
  }

  /** No form is stamped a second time within a minute. */
  predicate FreshStep(config: Config, s: State, t: Timed) {
    match t.event
    case EncryptForm(f, override) =>
      f in s.forms && Encrypt(s, f, override, t.now).0 != s ==> !Stamped(s, f, t.now)
    case RotateKey(k, publicKey) => k < |s.keys| ==> FreshRotation(config, s, k, publicKey, t.now)
    case RotateSweep(client) =>
      FreshRotations(config, s, Positions(s.keys, key => DueForRotation(key, t.now)), client, t.now)
    case _ => true
  }

  predicate FreshRun(config: Config, s: State, ts: seq<Timed>)
    decreases |ts|
  {
    ts == [] || (FreshStep(config, s, ts[0]) && FreshRun(config, Apply(config, s, ts[0]), ts[1..]))
  }

  lemma RotateUnique(config: Config, s: State, k: nat, publicKey: Option<string>, now: Time)
    requires Integrity(s) && k < |s.keys|
    ensures UniqueVersions(Rotate(config, s, k, publicKey, now).0)
            <==> UniqueVersions(s) && FreshRotation(config, s, k, publicKey, now)
  {}

  lemma {:induction false} RotateAllUnique(config: Config, s: State, ks: seq<nat>, client: Client, now: Time)
    requires Integrity(s) && forall i :: 0 <= i < |ks| ==> ks[i] < |s.keys|
    ensures UniqueVersions(RotateAll(config, s, ks, client, now).0)
            <==> UniqueVersions(s) && FreshRotations(config, s, ks, client, now)
    decreases |ks|
  {
    if ks != [] {
      var (s1, outcome) := Rotate(config, s, ks[0], client(|s.keys|), now);
      RotateUnique(config, s, ks[0], client(|s.keys|), now);
      RotateKeepsIntegrity(config, s, ks[0], client(|s.keys|), now);
      if outcome != Crashed {
        RotateAllUnique(config, s1, ks[1..], client, now);
      }
    }
  }

  lemma EncryptUnique(s: State, f: nat, override: bool, now: Time)
    requires f in s.forms
    ensures var s' := Encrypt(s, f, override, now).0;
      UniqueVersions(s') <==> UniqueVersions(s) && (s' != s ==> !Stamped(s, f, now))
  {}

  lemma ApplyUnique(config: Config, s: State, t: Timed)
    requires Integrity(s)
    ensures UniqueVersions(Apply(config, s, t)) <==> UniqueVersions(s) && FreshStep(config, s, t)
  {
    match t.event
    case EncryptForm(f, override) => if f in s.forms { EncryptUnique(s, f, override, t.now); }
    case RotateKey(k, publicKey) => if k < |s.keys| { RotateUnique(config, s, k, publicKey, t.now); }
    case RotateSweep(client) =>
      RotateAllUnique(config, s, Positions(s.keys, key => DueForRotation(key, t.now)), client, t.now);
    case DisableSweep(answers) => DisableExpiredChanges(s, answers, t.now);
    case _ =>
  }

  /** In every run, each form version has one key row exactly when no form is stamped twice within a minute. */
  lemma {:induction false} RunUniqueExactly(config: Config, s: State, ts: seq<Timed>)
    requires Good(config, s)
    ensures UniqueVersions(Run(config, s, ts)) <==> UniqueVersions(s) && FreshRun(config, s, ts)
    decreases |ts|
  {
    if ts != [] {
      ApplyUnique(config, s, ts[0]);
      ApplyKeepsGood(config, s, ts[0]);
      RunUniqueExactly(config, Apply(config, s, ts[0]), ts[1..]);
    }
  }

  // ---------------------------------------------------------------- an ambiguous version

  const Day := Config(Some(86400), 2592000)
  const Draft := XForm(Some(1), false, false, Label("1"), None, 0)

  /** Encrypting a form and rotating its key within the same minute leaves two rows for one version. */
  lemma SameMinuteIsAmbiguous()
    ensures !UniqueVersions(Run(Day, Empty,
      [At(0, CreateKey(1, Some("a"))), At(1, Publish(7, Draft)), At(2, EncryptForm(7, false)),
          At(3, RotateKey(0, Some("b")))]))
  {
    var s1 := Apply(Day, Empty, At(0, CreateKey(1, Some("a"))));
    var s2 := Apply(Day, s1, At(1, Publish(7, Draft)));
    var s3 := Apply(Day, s2, At(2, EncryptForm(7, false)));
    assert s2.keys[0].active && s2.keys[0].org == 1;
    assert FirstActive(s2.keys, 1) == Some(0);
    assert XFormKey(7, 0, Stamp(0)) in s3.rows;
    assert 7 in UsersOf(s3, 0);
    var s4 := Apply(Day, s3, At(3, RotateKey(0, Some("b"))));
    assert XFormKey(7, 0, Stamp(0)) in s4.rows && XFormKey(7, 1, Stamp(0)) in s4.rows;
    var ts := [At(0, CreateKey(1, Some("a"))), At(1, Publish(7, Draft)), At(2, EncryptForm(7, false)),
        At(3, RotateKey(0, Some("b")))];
    assert Run(Day, Empty, ts) == Run(Day, s1, ts[1..]) == Run(Day, s2, ts[1..][1..])
      == Run(Day, s3, ts[1..][1..][1..]) == Run(Day, s4, ts[1..][1..][1..][1..]) == s4;
  }
}
