/**
 Managed encryption keys (onadata/libs/kms/tools.py): the key, form and
 form-version tables, the operations that change them, and what holds in every run.

 The tables are a value of type State. Each operation is given as a function on State;
 class KeyManager carries the operations out in place and is proved to do exactly that.
 */
module Kms {
  import opened Common

  type Time = int                       // seconds

  /** A form version: a minute stamp written by the code, or a label chosen by the form's author. */
  datatype Version = Stamp(minute: int) | Label(text: string)

  /** strftime("%Y%m%d%H%M"): seconds are dropped. */
  function StampOf(now: Time): Version { Stamp(now / 60) }

  datatype KmsKey = KmsKey(
    org: nat,
    publicKey: string,
    active: bool,
    expiry: Option<Time>,
    graceEnd: Option<Time>,
    rotatedAt: Option<Time>,
    disabledAt: Option<Time>)

  datatype XForm = XForm(
    org: Option<nat>,                   // None: the owner is not an organization
    encrypted: bool,
    managed: bool,
    version: Version,
    publicKey: Option<string>,
    submissions: nat)

  /** A row of the form-version-to-key table; the table is a set because the triple is unique. */
  datatype XFormKey = XFormKey(form: nat, key: nat, version: Version)

  datatype State = State(keys: seq<KmsKey>, forms: map<nat, XForm>, rows: set<XFormKey>)

  /** rotation is None when no duration (or a zero one) is configured. */
  datatype Config = Config(rotation: Option<int>, grace: int)

  /** Refused is EncryptionError; Crashed is any other exception, after the transaction rolled back. */
  datatype Outcome = Done | Refused | Crashed

  // ---------------------------------------------------------------- operations on State

  function NewKey(config: Config, org: nat, publicKey: string, now: Time): KmsKey {
    KmsKey(org, publicKey, true,
           match config.rotation case None => None case Some(d) => Some(now + d),
           None, None, None)
  }

  /** Every form that ever had a row for the key. */
  function UsersOf(s: State, k: nat): set<nat> {
    set r | r in s.rows && r.key == k && r.form in s.forms :: r.form
  }

  function Reencrypted(x: XForm, publicKey: string, version: Version): XForm {
    x.(encrypted := true, managed := true, version := version, publicKey := Some(publicKey))
  }

  function EncryptAll(s: State, fs: set<nat>, k: nat, now: Time): State
    requires k < |s.keys|
  {
    State(s.keys,
          map f | f in s.forms ::
            if f in fs then Reencrypted(s.forms[f], s.keys[k].publicKey, StampOf(now)) else s.forms[f],
          s.rows + set f | f in fs :: XFormKey(f, k, StampOf(now)))
  }

  function Create(config: Config, s: State, org: nat, publicKey: Option<string>, now: Time): (State, Outcome) {
    match publicKey
    case None => (s, Crashed)
    case Some(pk) => (s.(keys := s.keys + [NewKey(config, org, pk, now)]), Done)
  }

  function Disable(s: State, k: nat, clientOk: bool, now: Time): (State, Outcome)
    requires k < |s.keys|
  {
    if s.keys[k].disabledAt.Some? then (s, Done)
    else if !clientOk then (s, Crashed)
    else (s.(keys := s.keys[k := s.keys[k].(disabledAt := Some(now), active := false)]), Done)
  }

  function Min(a: int, b: int): int { if a <= b then a else b }

  function Retired(config: Config, key: KmsKey, now: Time): KmsKey
    requires key.expiry.Some?
  {
    var expiry := Min(key.expiry.value, now);
    key.(expiry := Some(expiry), graceEnd := Some(expiry + config.grace), rotatedAt := Some(now), active := false)
  }

  function Rotate(config: Config, s: State, k: nat, publicKey: Option<string>, now: Time): (State, Outcome)
    requires k < |s.keys|
  {
    var key := s.keys[k];
    if key.disabledAt.Some? || key.rotatedAt.Some? then (s, Refused)
    else if publicKey.None? || key.expiry.None? then (s, Crashed)
    else
      var s1 := Create(config, s, key.org, publicKey, now).0;
      var s2 := EncryptAll(s1, UsersOf(s, k), |s.keys|, now);
      (s2.(keys := s2.keys[k := Retired(config, key, now)]), Done)
  }

  /** The oldest active key of an organization. */
  function FirstActive(keys: seq<KmsKey>, org: nat): (r: Option<nat>)
    ensures r.Some? ==> r.value < |keys| && keys[r.value].active && keys[r.value].org == org
    ensures r.Some? ==> forall i :: 0 <= i < r.value ==> !(keys[i].active && keys[i].org == org)
    ensures r.None? ==> forall i :: 0 <= i < |keys| ==> !(keys[i].active && keys[i].org == org)
  {
    if keys == [] then None
    else
      var n := |keys| - 1;
      var r := FirstActive(keys[..n], org);
      if r.Some? then r else if keys[n].active && keys[n].org == org then Some(n) else None
  }

  function Encrypt(s: State, f: nat, override: bool, now: Time): (State, Outcome)
    requires f in s.forms
  {
    var x := s.forms[f];
    if x.encrypted && !override then (s, Done)
    else if x.submissions > 0 || x.org.None? then (s, Refused)
    else match FirstActive(s.keys, x.org.value)
      case None => (s, Refused)
      case Some(k) =>
        if XFormKey(f, k, StampOf(now)) in s.rows then (s, Crashed)    // the row is unique
        else (EncryptAll(s, {f}, k, now), Done)
  }

  function StopEncrypting(s: State, f: nat, now: Time): (State, Outcome)
    requires f in s.forms
  {
    var x := s.forms[f];
    if !x.encrypted then (s, Done)
    else if x.submissions > 0 then (s, Refused)
    else if forall r | r in s.rows :: !(r.form == f && r.version == x.version) then (s, Refused)
    else (s.(forms := s.forms[f := x.(encrypted := false, managed := false,
                                      version := StampOf(now), publicKey := None)]), Done)
  }

  predicate DueForRotation(key: KmsKey, now: Time) {
    key.expiry.Some? && key.expiry.value <= now && key.disabledAt.None? && key.rotatedAt.None?
  }

  predicate DueForDisabling(key: KmsKey, now: Time) {
    && key.expiry.Some? && key.expiry.value <= now
    && key.graceEnd.Some? && key.graceEnd.value <= now
    && key.disabledAt.None?
  }

  /** Positions of the keys that satisfy a test, oldest first. */
  function Positions(keys: seq<KmsKey>, test: KmsKey -> bool): (ks: seq<nat>)
    ensures forall i :: 0 <= i < |ks| ==> ks[i] < |keys|
    ensures forall k :: k in ks <==> 0 <= k < |keys| && test(keys[k])
    ensures NoDuplicates(ks)
  {
    if keys == [] then []
    else
      var n := |keys| - 1;
      var ks := Positions(keys[..n], test);
      if test(keys[n]) then ks + [n] else ks
  }

  /** The KMS: the public key (or a failure) it answers for the key that gets position k. */
  type Client = nat -> Option<string>

  /** One rotation after the other; only EncryptionError lets the sweep go on. */
  function RotateAll(config: Config, s: State, ks: seq<nat>, client: Client, now: Time): (r: (State, Outcome))
    requires forall i :: 0 <= i < |ks| ==> ks[i] < |s.keys|
    ensures |r.0.keys| >= |s.keys|
    decreases |ks|
  {
    if ks == [] then (s, Done)
    else
      var (s1, outcome) := Rotate(config, s, ks[0], client(|s.keys|), now);
      if outcome == Crashed then (s1, Crashed) else RotateAll(config, s1, ks[1..], client, now)
  }

  function DisableAll(s: State, ks: seq<nat>, clientOk: nat -> bool, now: Time): (r: State)
    requires forall i :: 0 <= i < |ks| ==> ks[i] < |s.keys|
    ensures |r.keys| == |s.keys|
    decreases |ks|
  {
    if ks == [] then s else DisableAll(Disable(s, ks[0], clientOk(ks[0]), now).0, ks[1..], clientOk, now)
  }

  function RotateExpired(config: Config, s: State, client: Client, now: Time): (State, Outcome) {
    RotateAll(config, s, Positions(s.keys, key => DueForRotation(key, now)), client, now)
  }

  function DisableExpired(s: State, clientOk: nat -> bool, now: Time): State {
    DisableAll(s, Positions(s.keys, key => DueForDisabling(key, now)), clientOk, now)
  }

  // ---------------------------------------------------------------- the tables, updated in place

  /** Foreign keys: a row names a key and a form that exist. */
  ghost predicate Integrity(s: State) {
    forall r :: r in s.rows ==> r.key < |s.keys| && r.form in s.forms
  }

  class KeyManager {
    const config: Config
    var keys: seq<KmsKey>
    var forms: map<nat, XForm>
    var rows: set<XFormKey>

    constructor (config: Config)
      ensures Abs() == State([], map[], {}) && this.config == config
    {
      this.config := config;
      keys, forms, rows := [], map[], {};
    }

    function Abs(): State
      reads this
    {
      State(keys, forms, rows)
    }

    method CreateKey(org: nat, publicKey: Option<string>, now: Time) returns (outcome: Outcome)
      modifies this
      ensures (Abs(), outcome) == Create(config, old(Abs()), org, publicKey, now)
    {
      if publicKey.None? {
        return Crashed;
      }
      var expiry: Option<Time> := None;
      if config.rotation.Some? {
        expiry := Some(now + config.rotation.value);
      }
      keys := keys + [KmsKey(org, publicKey.value, true, expiry, None, None, None)];
      outcome := Done;
    }

    method DisableKey(k: nat, clientOk: bool, now: Time) returns (outcome: Outcome)
      requires k < |keys|
      modifies this
      ensures (Abs(), outcome) == Disable(old(Abs()), k, clientOk, now)
    {
      if keys[k].disabledAt.Some? {
        return Done;
      }
      if !clientOk {
        return Crashed;
      }
      keys := keys[k := keys[k].(disabledAt := Some(now), active := false)];
      outcome := Done;
    }

    /** Encrypts one form with one key; false is the database's refusal of a second identical row. */
    method EncryptForm(f: nat, k: nat, now: Time) returns (ok: bool)
      requires f in forms && k < |keys|
      modifies this
      ensures ok <==> XFormKey(f, k, StampOf(now)) !in old(rows)
      ensures Abs() == if ok then EncryptAll(old(Abs()), {f}, k, now) else old(Abs())
    {
      var version := StampOf(now);
      if XFormKey(f, k, version) in rows {
        return false;
      }
      var x := forms[f];
      forms := forms[f := XForm(x.org, true, true, version, Some(keys[k].publicKey), x.submissions)];
      rows := rows + {XFormKey(f, k, version)};
      assert rows == EncryptAll(old(Abs()), {f}, k, now).rows;
      ok := true;
    }

    method RotateKey(k: nat, publicKey: Option<string>, now: Time) returns (outcome: Outcome)
      requires k < |keys| && Integrity(Abs())
      modifies this
      ensures (Abs(), outcome) == Rotate(config, old(Abs()), k, publicKey, now)
    {
      if keys[k].disabledAt.Some? || keys[k].rotatedAt.Some? {
        return Refused;
      }
      var savedKeys, savedForms, savedRows := keys, forms, rows;    // the transaction's savepoint
      var newKey := |keys|;
      outcome := CreateKey(keys[k].org, publicKey, now);
      if outcome == Crashed {
        return;
      }
      ghost var before := Abs();
      ghost var users := UsersOf(before, k);
      var todo := set r | r in rows && r.key == k && r.form in forms :: r.form;
      ghost var done: set<nat> := {};
      EncryptNone(before, newKey, now);
      while todo != {}
        invariant done !! todo && done + todo == users
        invariant Abs() == EncryptAll(before, done, newKey, now)
        decreases todo
      {
        var f :| f in todo;
        assert f in before.forms;
        assert XFormKey(f, newKey, StampOf(now)) !in rows;
        var ok := EncryptForm(f, newKey, now);
        EncryptOneMore(before, done, f, newKey, now);
        done, todo := done + {f}, todo - {f};
      }
      assert done == users;
      if keys[k].expiry.None? {
        keys, forms, rows := savedKeys, savedForms, savedRows;      // min(None, now) raises: roll back
        return Crashed;
      }
      var expiry := Min(keys[k].expiry.value, now);
      keys := keys[k := keys[k].(expiry := Some(expiry), graceEnd := Some(expiry + config.grace),
                                 rotatedAt := Some(now), active := false)];
      assert UsersOf(old(Abs()), k) == users;
    }

    method EncryptXform(f: nat, override: bool, now: Time) returns (outcome: Outcome)
      requires f in forms
      modifies this
      ensures (Abs(), outcome) == Encrypt(old(Abs()), f, override, now)
    {
      if forms[f].encrypted && !override {
        return Done;
      }
      if forms[f].submissions > 0 || forms[f].org.None? {
        return Refused;
      }
      var k := FirstActive(keys, forms[f].org.value);
      if k.None? {
        return Refused;
      }
      var ok := EncryptForm(f, k.value, now);
      outcome := if ok then Done else Crashed;
    }

    method DisableXformEncryption(f: nat, now: Time) returns (outcome: Outcome)
      requires f in forms
      modifies this
      ensures (Abs(), outcome) == StopEncrypting(old(Abs()), f, now)
    {
      var x := forms[f];
      if !x.encrypted {
        return Done;
      }
      if x.submissions > 0 {
        return Refused;
      }
      if forall r | r in rows :: !(r.form == f && r.version == x.version) {
        return Refused;
      }
      forms := forms[f := XForm(x.org, false, false, StampOf(now), None, x.submissions)];
      outcome := Done;
    }

    method RotateExpiredKeys(client: Client, now: Time) returns (outcome: Outcome)
      requires Integrity(Abs())
      modifies this
      ensures (Abs(), outcome) == RotateExpired(config, old(Abs()), client, now)
    {
      var due := Positions(keys, key => DueForRotation(key, now));
      var i := 0;
      while i < |due|
        invariant 0 <= i <= |due| && Integrity(Abs())
        invariant forall j :: 0 <= j < |due| ==> due[j] < |keys|
        invariant RotateAll(config, Abs(), due[i..], client, now) == RotateExpired(config, old(Abs()), client, now)
      {
        RotateKeepsIntegrity(config, Abs(), due[i], client(|keys|), now);
        assert due[i..][1..] == due[i + 1..];
        outcome := RotateKey(due[i], client(|keys|), now);
        if outcome == Crashed {
          return;
        }
        i := i + 1;
      }
      outcome := Done;
    }

    method DisableExpiredKeys(clientOk: nat -> bool, now: Time)
      modifies this
      ensures Abs() == DisableExpired(old(Abs()), clientOk, now)
    {
      var due := Positions(keys, key => DueForDisabling(key, now));
      var i := 0;
      while i < |due|
        invariant 0 <= i <= |due|
        invariant forall j :: 0 <= j < |due| ==> due[j] < |keys|
        invariant DisableAll(Abs(), due[i..], clientOk, now) == DisableExpired(old(Abs()), clientOk, now)
      {
        assert due[i..][1..] == due[i + 1..];
        var _ := DisableKey(due[i], clientOk(due[i]), now);
        i := i + 1;
      }
    }
  }

  lemma EncryptNone(s: State, k: nat, now: Time)
    requires k < |s.keys|
    ensures EncryptAll(s, {}, k, now) == s
  {}

  lemma EncryptOneMore(s: State, fs: set<nat>, f: nat, k: nat, now: Time)
    requires k < |s.keys|
    ensures EncryptAll(EncryptAll(s, fs, k, now), {f}, k, now) == EncryptAll(s, fs + {f}, k, now)
  {}

  lemma RotateKeepsIntegrity(config: Config, s: State, k: nat, publicKey: Option<string>, now: Time)
    requires k < |s.keys| && Integrity(s)
    ensures Integrity(Rotate(config, s, k, publicKey, now).0)
  {}
}
