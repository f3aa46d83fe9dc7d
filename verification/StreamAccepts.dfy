/**
 Which values the XML renderers accept, and what they make of "@" entries (_to_xml and _pop_xml_attributes in
 onadata/libs/renderers/renderers.py).
 */
module StreamAccepts {
  import opened Common
  import opened StreamXml
  import opened Text

  // ---------------------------------------------------------------- "@" entries

  /** The name of an attribute is the key with its "@"s taken out, wherever they stand. */
  lemma {:induction false} StrippedExactly(key: string)
    ensures Stripped(key) == Join(Split(key, '@'), "")
  {
    if key != "" {
      var rest := Split(key[1..], '@');
      StrippedExactly(key[1..]);
      if key[0] == '@' {
        assert Split(key, '@') == [""] + rest && ([""] + rest)[1..] == rest;
        assert Join([""] + rest, "") == "" + "" + Join(rest, "");
      } else {
        var parts := [[key[0]] + rest[0]] + rest[1..];
        assert parts[1..] == rest[1..];
        if |rest| > 1 {
          Associates([key[0]], rest[0], Join(rest[1..], ""));
          assert rest[0] + "" == rest[0] && [key[0]] + rest[0] + "" == [key[0]] + rest[0];
        }
      }
    }
  }

  // ---------------------------------------------------------------- accepted values

  /** Within a value, another one has its "@" entries taken out. */
  ghost predicate Pops(k: Kind, v: Value, u: Value)
    decreases v, 0
  {
    match v
    case List(items) => exists i | 0 <= i < |items| :: ItemPops(k, items[i], u)
    case Dict(entries) => exists i | 0 <= i < |entries| ::
        (assert entries decreases to entries[i]; EntryPops(k, entries[i], u))
    case _ => false
  }

  /** Of submissions, each item of a list is such a value. */
  ghost predicate ItemPops(k: Kind, v: Value, u: Value)
    decreases v, 2
  {
    if k.Instances? then Popping(k, v, u) else Pops(k, v, u)
  }

  /** A value whose "@" entries are taken out, or one within the others. */
  ghost predicate Popping(k: Kind, v: Value, u: Value)
    decreases v, 1
  {
    u == v || (v.Dict? && exists i | 0 <= i < |v.entries| ::
                 (assert v.entries decreases to v.entries[i];
                  !("@" <= v.entries[i].0) && EntryPops(k, v.entries[i], u)))
  }

  /** Of submissions, the dictionary under a key is such a value, the items of a list under a key are not. */
  ghost predicate EntryPops(k: Kind, e: (string, Value), u: Value)
    decreases e, 0
  {
    if k.Forms? || e.0 == "" then Pops(k, e.1, u)
    else match e.1
      case List(items) => exists i | 0 <= i < |items| :: Pops(k, items[i], u)
      case Dict(_) => Popping(k, e.1, u)
      case _ => false
  }

  /** A dictionary all of whose attributes are texts. */
  predicate Fine(u: Value) {
    u.Dict? && forall i | 0 <= i < |Attributes(u.entries)| :: Attributes(u.entries)[i].1.Text?
  }

  lemma {:induction false} ItemsAll(k: Kind, items: seq<Value>)
    ensures ItemsAccepted(k, items) <==> forall i | 0 <= i < |items| :: ItemAccepted(k, items[i])
    decreases |items|
  {
    if items != [] {
      ItemsAll(k, items[..|items| - 1]);
    }
  }

  lemma {:induction false} FieldsAll(k: Kind, entries: seq<(string, Value)>)
    ensures FieldsAccepted(k, entries)
            <==> forall i | 0 <= i < |entries| :: FieldAccepted(k, entries[i].0, entries[i].1)
    decreases |entries|
  {
    if entries != [] {
      FieldsAll(k, entries[..|entries| - 1]);
    }
  }

  lemma {:induction false} RepeatedAll(k: Kind, items: seq<Value>)
    ensures RepeatedAccepted(k, items) <==> forall i | 0 <= i < |items| :: Accepted(k, items[i])
    decreases |items|
  {
    if items != [] {
      RepeatedAll(k, items[..|items| - 1]);
    }
  }

  lemma {:induction false} PlainAll(k: Kind, entries: seq<(string, Value)>)
    ensures FieldsAccepted(k, Plain(entries)) <==>
              forall i | 0 <= i < |entries| :: "@" <= entries[i].0 || FieldAccepted(k, entries[i].0, entries[i].1)
    decreases |entries|
  {
    if entries != [] {
      var n := |entries| - 1;
      PlainAll(k, entries[..n]);
      PlainStep(k, entries);
      assert IsAttribute(entries[n].0) <==> "@" <= entries[n].0;
    }
  }

  lemma PlainStep(k: Kind, entries: seq<(string, Value)>)
    requires entries != []
    ensures var n := |entries| - 1;
            FieldsAccepted(k, Plain(entries)) <==>
              && FieldsAccepted(k, Plain(entries[..n]))
              && (IsAttribute(entries[n].0) || FieldAccepted(k, entries[n].0, entries[n].1))
  {
    var before, last := Plain(entries[..|entries| - 1]), entries[|entries| - 1];
    assert (before + [last])[..|before|] == before;
  }

  /** A value is accepted if and only if all that have their "@" entries taken out are dictionaries with attributes that
      are texts. */
  lemma {:induction false} AcceptedExactly(k: Kind, v: Value)
    ensures Accepted(k, v) <==> forall u :: Pops(k, v, u) ==> Fine(u)
    decreases Size(v), 0
  {
    match v
    case List(items) =>
      ItemsAll(k, items);
      forall i | 0 <= i < |items|
        ensures ItemAccepted(k, items[i]) <==> forall u :: ItemPops(k, items[i], u) ==> Fine(u)
      {
        ItemsSizePrefix(items, i);
        if k.Instances? { PoppingExactly(k, items[i]); } else { AcceptedExactly(k, items[i]); }
      }
    case Dict(entries) =>
      FieldsAll(k, entries);
      forall i | 0 <= i < |entries|
        ensures FieldAccepted(k, entries[i].0, entries[i].1) <==> forall u :: EntryPops(k, entries[i], u) ==> Fine(u)
      {
        EntriesSizePrefix(entries, i);
        EntryExactly(k, entries[i]);
      }
    case _ =>
  }

  lemma {:induction false} PoppingExactly(k: Kind, v: Value)
    ensures PoppedAccepted(k, v) <==> forall u :: Popping(k, v, u) ==> Fine(u)
    decreases Size(v), 1
  {
    assert Popping(k, v, v);
    if v.Dict? {
      PlainAll(k, v.entries);
      forall i | 0 <= i < |v.entries|
        ensures FieldAccepted(k, v.entries[i].0, v.entries[i].1)
                <==> forall u :: EntryPops(k, v.entries[i], u) ==> Fine(u)
      {
        EntriesSizePrefix(v.entries, i);
        EntryExactly(k, v.entries[i]);
      }
    }
  }

  lemma {:induction false} EntryExactly(k: Kind, e: (string, Value))
    ensures FieldAccepted(k, e.0, e.1) <==> forall u :: EntryPops(k, e, u) ==> Fine(u)
    decreases Size(e.1), 2
  {
    if k.Forms? || e.0 == "" {
      AcceptedExactly(k, e.1);
    } else {
      match e.1
      case List(items) =>
        RepeatedAll(k, items);
        forall i | 0 <= i < |items|
          ensures Accepted(k, items[i]) <==> forall u :: Pops(k, items[i], u) ==> Fine(u)
        {
          ItemsSizePrefix(items, i);
          AcceptedExactly(k, items[i]);
        }
      case Dict(_) => PoppingExactly(k, e.1);
      case _ =>
    }
  }
}
