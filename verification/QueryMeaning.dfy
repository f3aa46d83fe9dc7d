/** What emitted WHERE clauses say of a row, and when their placeholders match their parameters. */
module QueryMeaning {
  import opened Common
  import opened Grouping
  import opened QueryWhere

  // ---------------------------------------------------------------- evaluating clauses

  /** Where a submission keeps what is asked for: a field of the submission itself, or an answer, perhaps cast. */
  datatype Place = Created | Modified | Id | Version | Edited | Answer(key: string, cast: Cast)

  datatype Relation = Greater | NotLess | Less | NotGreater | Equal | Like

  /** How a submission answers: a comparison of what it keeps, a NULL test, a text search. */
  datatype Row = Row(compare: (Place, Relation, Json) -> bool, isNull: Place -> bool, matches: Json -> bool)

  /** What an SQL operator compares. */
  function Related(op: string): Option<Relation> {
    match op
    case ">" => Some(Greater)
    case ">=" => Some(NotLess)
    case "<" => Some(Less)
    case "<=" => Some(NotGreater)
    case "=" => Some(Equal)
    case "~*" => Some(Like)
    case _ => None
  }

  /** What a column of the submission table keeps. */
  function TablePlace(column: string): Option<Place> {
    match column
    case "date_created" => Some(Created)
    case "date_modified" => Some(Modified)
    case "id" => Some(Id)
    case "version" => Some(Version)
    case "last_edited" => Some(Edited)
    case _ => None
  }

  function ColumnPlace(c: Column, key: string): Option<Place> {
    match c
    case InJson(cast) => Some(Answer(key, cast))
    case InTable(column) => TablePlace(column)
  }

  predicate Compared(row: Row, c: Column, key: string, op: string, p: Json) {
    && ColumnPlace(c, key).Some? && Related(op).Some?
    && row.compare(ColumnPlace(c, key).value, Related(op).value, p)
  }

  function Placeholders(c: Clause): nat
    decreases c, 1
  {
    match c
    case Compare(InJson(_), _) => 2
    case Compare(InTable(_), _) => 1
    case IsNull => 1
    case TextMatch => 1
    case All(parts) => Total(parts)
    case Any(parts) => Total(parts)
  }

  function Total(cs: seq<Clause>): nat
    decreases cs, 0
  {
    if cs == [] then 0 else Placeholders(cs[0]) + Total(cs[1..])
  }

  /** A parameter used as the name of a JSON field. */
  function FieldName(p: Json): string { if p.JText? then p.s else "" }

  /** The truth of a clause when its placeholders are bound, left to right, to the parameters. */
  predicate Eval(row: Row, c: Clause, ps: seq<Json>)
    requires |ps| == Placeholders(c)
    decreases c, 1
  {
    match c
    case Compare(InJson(cast), op) => Compared(row, InJson(cast), FieldName(ps[0]), op, ps[1])
    case Compare(InTable(column), op) => Compared(row, InTable(column), "", op, ps[0])
    case IsNull => row.isNull(Answer(FieldName(ps[0]), NoCast))
    case TextMatch => row.matches(ps[0])
    case All(parts) => EvalAll(row, parts, ps)
    case Any(parts) => EvalAny(row, parts, ps)
  }

  predicate EvalAll(row: Row, cs: seq<Clause>, ps: seq<Json>)
    requires |ps| == Total(cs)
    decreases cs, 0
  {
    cs == [] || (Eval(row, cs[0], ps[..Placeholders(cs[0])]) && EvalAll(row, cs[1..], ps[Placeholders(cs[0])..]))
  }

  predicate EvalAny(row: Row, cs: seq<Clause>, ps: seq<Json>)
    requires |ps| == Total(cs)
    decreases cs, 0
  {
    cs != [] && (Eval(row, cs[0], ps[..Placeholders(cs[0])]) || EvalAny(row, cs[1..], ps[Placeholders(cs[0])..]))
  }

  lemma {:induction false} TotalAppend(cs: seq<Clause>, ds: seq<Clause>)
    ensures Total(cs + ds) == Total(cs) + Total(ds)
  {
    if cs == [] {
      assert cs + ds == ds;
    } else {
      assert (cs + ds)[0] == cs[0] && (cs + ds)[1..] == cs[1..] + ds;
      TotalAppend(cs[1..], ds);
    }
  }

  lemma {:induction false} EvalAllAppend(row: Row, cs: seq<Clause>, ps: seq<Json>, ds: seq<Clause>, qs: seq<Json>)
    requires |ps| == Total(cs) && |qs| == Total(ds)
    ensures Total(cs + ds) == |ps + qs|
    ensures EvalAll(row, cs + ds, ps + qs) <==> EvalAll(row, cs, ps) && EvalAll(row, ds, qs)
  {
    TotalAppend(cs, ds);
    if cs == [] {
      assert cs + ds == ds && ps + qs == qs;
    } else {
      var n := Placeholders(cs[0]);
      assert (cs + ds)[0] == cs[0] && (cs + ds)[1..] == cs[1..] + ds;
      assert (ps + qs)[..n] == ps[..n] && (ps + qs)[n..] == ps[n..] + qs;
      EvalAllAppend(row, cs[1..], ps[n..], ds, qs);
    }
  }

  lemma {:induction false} EvalAnyAppend(row: Row, cs: seq<Clause>, ps: seq<Json>, ds: seq<Clause>, qs: seq<Json>)
    requires |ps| == Total(cs) && |qs| == Total(ds)
    ensures Total(cs + ds) == |ps + qs|
    ensures EvalAny(row, cs + ds, ps + qs) <==> EvalAny(row, cs, ps) || EvalAny(row, ds, qs)
  {
    TotalAppend(cs, ds);
    if cs == [] {
      assert cs + ds == ds && ps + qs == qs;
    } else {
      var n := Placeholders(cs[0]);
      assert (cs + ds)[0] == cs[0] && (cs + ds)[1..] == cs[1..] + ds;
      assert (ps + qs)[..n] == ps[..n] && (ps + qs)[n..] == ps[n..] + qs;
      EvalAnyAppend(row, cs[1..], ps[n..], ds, qs);
    }
  }

  lemma EvalOne(row: Row, c: Clause, ps: seq<Json>)
    requires |ps| == Placeholders(c)
    ensures Total([c]) == |ps|
    ensures EvalAll(row, [c], ps) <==> Eval(row, c, ps)
    ensures EvalAny(row, [c], ps) <==> Eval(row, c, ps)
  {
    assert Total([c][1..]) == 0;
    assert ps[..|ps|] == ps;
  }

  // ---------------------------------------------------------------- what is emitted for an entry

  /** key op value, for a value already turned into a parameter. */
  predicate Holds(env: Env, row: Row, key: string, op: string, v: Json) {
    Compared(row, ColumnFor(env, key), if TableColumn(key).Some? then "" else key, op, v)
  }

  /** Every {operator: value} condition on the key holds. */
  predicate OpsMeaning(env: Env, row: Row, key: string, ops: Entries) {
    forall i | 0 <= i < |ops| ::
      && Operand(ops[i].0).Some? && Argument(env, key, ops[i].1).Ok?
      && Holds(env, row, key, Operand(ops[i].0).value, Argument(env, key, ops[i].1).value)
  }

  predicate FieldEmitted(env: Env, row: Row, key: string, v: Json) {
    if v.JDict? then OpsMeaning(env, row, key, v.entries)
    else if TableColumn(key).Some? then Compared(row, InTable(TableColumn(key).value), "", "=", JText(env.text(v)))
    else if v.JNull? then row.isNull(Answer(key, NoCast))
    else Compared(row, InJson(NoCast), key, "=", JText(env.text(v)))
  }

  predicate QueryEmitted(env: Env, row: Row, query: Entries) {
    forall i | 0 <= i < |query| :: FieldEmitted(env, row, query[i].0, query[i].1)
  }

  /** One JSON key of an alternative: the raw value is compared, or each item of a list. */
  predicate KeyEmitted(row: Row, key: string, v: Json) {
    match v
    case JNull => row.isNull(Answer(key, NoCast))
    case JList(items) => exists i | 0 <= i < |items| :: Compared(row, InJson(NoCast), key, "=", items[i])
    case _ => Compared(row, InJson(NoCast), key, "=", v)
  }

  // ---------------------------------------------------------------- operators the code knows

  predicate KnownOps(ops: Entries) { forall i | 0 <= i < |ops| :: Operand(ops[i].0).Some? }

  predicate KnownQuery(query: Entries) {
    forall i | 0 <= i < |query| :: query[i].1.JDict? ==> KnownOps(query[i].1.entries)
  }

  /** Conditions on table columns are parsed as a query of their own. */
  predicate KnownMember(member: Entries) {
    (exists i | 0 <= i < |member| :: TableColumn(member[i].0).Some?) ==> KnownQuery(member)
  }

  // ---------------------------------------------------------------- field conditions

  lemma {:induction false} OpsPlaceholders(env: Env, key: string, ops: Entries)
    requires OpsSql(env, key, ops).Ok?
    ensures var sql := OpsSql(env, key, ops).value;
      && Total(sql.where) <= |sql.params|
      && (Total(sql.where) == |sql.params| <==> KnownOps(ops))
  {
    if ops != [] {
      OpsPlaceholders(env, key, ops[1..]);
      var rest := OpsSql(env, key, ops[1..]).value;
      var v := Argument(env, key, ops[0].1).value;
      if Operand(ops[0].0).Some? {
        var c := Compare(ColumnFor(env, key), Operand(ops[0].0).value);
        TotalAppend([c], rest.where);
        assert KnownOps(ops) <==> KnownOps(ops[1..]) by {
          forall i | 0 <= i < |ops[1..]| ensures ops[1..][i] == ops[i + 1] {}
          if KnownOps(ops[1..]) {
            forall i | 0 <= i < |ops| ensures Operand(ops[i].0).Some? {
              if i > 0 { assert ops[i] == ops[1..][i - 1]; }
            }
          }
        }
      } else {
        assert [] + rest.where == rest.where;
        assert |Args(key, v)| > 0;
      }
    }
  }

  lemma {:induction false} OpsMean(env: Env, row: Row, key: string, ops: Entries)
    requires OpsSql(env, key, ops).Ok? && KnownOps(ops)
    ensures var sql := OpsSql(env, key, ops).value;
      Total(sql.where) == |sql.params| && (EvalAll(row, sql.where, sql.params) <==> OpsMeaning(env, row, key, ops))
  {
    OpsPlaceholders(env, key, ops);
    if ops != [] {
      var rest := OpsSql(env, key, ops[1..]).value;
      var v := Argument(env, key, ops[0].1).value;
      var c := Compare(ColumnFor(env, key), Operand(ops[0].0).value);
      forall i | 0 <= i < |ops[1..]| ensures Operand(ops[1..][i].0).Some? {
        assert ops[1..][i] == ops[i + 1];
      }
      OpsMean(env, row, key, ops[1..]);
      EvalOne(row, c, Args(key, v));
      EvalAllAppend(row, [c], Args(key, v), rest.where, rest.params);
      if OpsMeaning(env, row, key, ops) {
        forall i | 0 <= i < |ops[1..]| ensures ops[1..][i] == ops[i + 1] {}
        assert OpsMeaning(env, row, key, ops[1..]);
        assert ops[0].1 == ops[0].1 && Holds(env, row, key, Operand(ops[0].0).value, v);
      }
      if OpsMeaning(env, row, key, ops[1..]) && Holds(env, row, key, Operand(ops[0].0).value, v) {
        forall i | 0 <= i < |ops|
          ensures Argument(env, key, ops[i].1).Ok?
              && Holds(env, row, key, Operand(ops[i].0).value, Argument(env, key, ops[i].1).value)
        {
          if i > 0 { assert ops[i] == ops[1..][i - 1]; }
        }
      }
    }
  }

  lemma FieldMeans(env: Env, row: Row, key: string, v: Json)
    requires FieldSql(env, key, v).Ok?
    ensures var sql := FieldSql(env, key, v).value;
      && Total(sql.where) <= |sql.params|
      && (Total(sql.where) == |sql.params| <==> (v.JDict? ==> KnownOps(v.entries)))
      && (Total(sql.where) == |sql.params| ==>
            (EvalAll(row, sql.where, sql.params) <==> FieldEmitted(env, row, key, v)))
  {
    var sql := FieldSql(env, key, v).value;
    if v.JDict? {
      OpsPlaceholders(env, key, v.entries);
      if KnownOps(v.entries) {
        OpsMean(env, row, key, v.entries);
      }
    } else {
      EvalOne(row, sql.where[0], sql.params);
      assert sql.where == [sql.where[0]];
    }
  }

  /** Placeholders match parameters exactly when every operator is known; and then the clauses say what is emitted. */
  lemma {:induction false} WhereEmits(env: Env, row: Row, query: Entries)
    requires WhereSql(env, query).Ok?
    ensures var sql := WhereSql(env, query).value;
      && Total(sql.where) <= |sql.params|
      && (Total(sql.where) == |sql.params| <==> KnownQuery(query))
      && (KnownQuery(query) ==> (EvalAll(row, sql.where, sql.params) <==> QueryEmitted(env, row, query)))
  {
    if query != [] {
      var (key, v) := query[0];
      var first, rest := FieldSql(env, key, v).value, WhereSql(env, query[1..]).value;
      FieldMeans(env, row, key, v);
      WhereEmits(env, row, query[1..]);
      TotalAppend(first.where, rest.where);
      if KnownQuery(query) {
        EvalAllAppend(row, first.where, first.params, rest.where, rest.params);
      }
    }
  }

  // ---------------------------------------------------------------- alternatives

  /** What the code emits for one key of an alternative: all the alternative's conditions for a table column,
      the key's own condition otherwise. */
  predicate EmittedKey(env: Env, row: Row, member: Entries, key: string, v: Json) {
    if TableColumn(key).Some? then QueryEmitted(env, row, member) else KeyEmitted(row, key, v)
  }

  /** The emitted clause of an alternative is true when it is for some key. */
  predicate EmittedMember(env: Env, row: Row, member: Entries) {
    exists i | 0 <= i < |member| :: EmittedKey(env, row, member, member[i].0, member[i].1)
  }

  lemma {:induction false} OrItemsMean(row: Row, key: string, items: seq<Json>)
    ensures var sql := OrItemsSql(key, items);
      && Total(sql.where) == |sql.params|
      && (EvalAny(row, sql.where, sql.params)
          <==> exists i | 0 <= i < |items| :: Compared(row, InJson(NoCast), key, "=", items[i]))
  {
    if items != [] {
      var rest := OrItemsSql(key, items[1..]);
      var c := Compare(InJson(NoCast), "=");
      OrItemsMean(row, key, items[1..]);
      EvalOne(row, c, [JText(key), items[0]]);
      EvalAnyAppend(row, [c], [JText(key), items[0]], rest.where, rest.params);
      if exists i | 0 <= i < |items[1..]| :: Compared(row, InJson(NoCast), key, "=", items[1..][i]) {
        var i :| 0 <= i < |items[1..]| && Compared(row, InJson(NoCast), key, "=", items[1..][i]);
        assert items[i + 1] == items[1..][i];
      }
      if exists i | 0 < i < |items| :: Compared(row, InJson(NoCast), key, "=", items[i]) {
        var i :| 0 < i < |items| && Compared(row, InJson(NoCast), key, "=", items[i]);
        assert items[1..][i - 1] == items[i];
      }
    }
  }

  lemma OrKeyMeans(env: Env, row: Row, member: Entries, key: string, v: Json)
    requires OrKeySql(env, member, key, v).Ok? && (TableColumn(key).Some? ==> KnownQuery(member))
    ensures var sql := OrKeySql(env, member, key, v).value;
      && Total(sql.where) == |sql.params|
      && (EvalAny(row, sql.where, sql.params) <==> EmittedKey(env, row, member, key, v))
  {
    var sql := OrKeySql(env, member, key, v).value;
    if TableColumn(key).Some? {
      WhereEmits(env, row, member);
      EvalOne(row, All(WhereSql(env, member).value.where), sql.params);
    } else if v.JList? {
      OrItemsMean(row, key, v.items);
    } else {
      EvalOne(row, sql.where[0], sql.params);
      assert sql.where == [sql.where[0]];
    }
  }

  lemma {:induction false} OrMemberMeans(env: Env, row: Row, member: Entries, todo: Entries)
    requires OrMemberSql(env, member, todo).Ok?
    requires forall i | 0 <= i < |todo| :: TableColumn(todo[i].0).Some? ==> KnownQuery(member)
    ensures var sql := OrMemberSql(env, member, todo).value;
      && Total(sql.where) == |sql.params|
      && (EvalAny(row, sql.where, sql.params)
          <==> exists i | 0 <= i < |todo| :: EmittedKey(env, row, member, todo[i].0, todo[i].1))
  {
    if todo != [] {
      var (key, v) := todo[0];
      var first, rest := OrKeySql(env, member, key, v).value, OrMemberSql(env, member, todo[1..]).value;
      OrKeyMeans(env, row, member, key, v);
      forall i | 0 <= i < |todo[1..]| ensures todo[1..][i] == todo[i + 1] {}
      OrMemberMeans(env, row, member, todo[1..]);
      EvalAnyAppend(row, first.where, first.params, rest.where, rest.params);
      if exists i | 0 < i < |todo| :: EmittedKey(env, row, member, todo[i].0, todo[i].1) {
        var i :| 0 < i < |todo| && EmittedKey(env, row, member, todo[i].0, todo[i].1);
        assert todo[1..][i - 1] == todo[i];
      }
    }
  }

  predicate KnownItems(items: seq<Json>) {
    forall i | 0 <= i < |items| :: items[i].JDict? && KnownMember(items[i].entries)
  }

  ghost predicate SomeEmitted(env: Env, row: Row, items: seq<Json>)
    requires KnownItems(items)
  {
    exists i | 0 <= i < |items| :: EmittedMember(env, row, items[i].entries)
  }

  lemma SomeFirst(env: Env, row: Row, items: seq<Json>)
    requires items != [] && KnownItems(items)
    ensures KnownItems(items[1..])
    ensures SomeEmitted(env, row, items) <==>
            EmittedMember(env, row, items[0].entries) || SomeEmitted(env, row, items[1..])
  {
    forall i | 0 <= i < |items[1..]| ensures items[1..][i] == items[i + 1] {}
    if i: nat :| i < |items| && EmittedMember(env, row, items[i].entries) {
      if i > 0 { assert EmittedMember(env, row, items[1..][i - 1].entries); }
    }
  }

  lemma {:induction false} OrMeans(env: Env, row: Row, items: seq<Json>)
    requires OrSql(env, items).Ok? && KnownItems(items)
    ensures var sql := OrSql(env, items).value;
      && Total(sql.where) == |sql.params|
      && (EvalAny(row, sql.where, sql.params) <==> SomeEmitted(env, row, items))
  {
    if items != [] {
      var member := items[0].entries;
      var first, rest := OrMemberSql(env, member, member).value, OrSql(env, items[1..]).value;
      OrMemberMeans(env, row, member, member);
      assert EvalAny(row, first.where, first.params) <==> EmittedMember(env, row, member);
      SomeFirst(env, row, items);
      OrMeans(env, row, items[1..]);
      EvalAnyAppend(row, first.where, first.params, rest.where, rest.params);
    }
  }

  // ---------------------------------------------------------------- the whole query

  /** For every query with known operators that the code accepts, binding the parameters left to right makes the
      clauses true exactly when all field conditions hold and some alternative's emitted condition does. */
  lemma EmittedMeaning(env: Env, row: Row, query: Entries, items: seq<Json>)
    requires Get(query, "$or") == Some(JList(items)) && KnownItems(items) && KnownQuery(Without(query, "$or"))
    requires DictSql(env, query).Ok?
    ensures var sql := DictSql(env, query).value;
      && Total(sql.where) == |sql.params|
      && (EvalAll(row, sql.where, sql.params)
          <==> QueryEmitted(env, row, Without(query, "$or"))
               && exists i | 0 <= i < |items| :: EmittedMember(env, row, items[i].entries))
  {
    OrSqlOfDicts(env, items);
    var rest := Without(query, "$or");
    var alternatives := OrSql(env, items).value;
    var sql := WhereSql(env, rest).value;
    OrMeans(env, row, items);
    assert SomeEmitted(env, row, items) <==> exists i | 0 <= i < |items| :: EmittedMember(env, row, items[i].entries);
    WhereEmits(env, row, rest);
    EvalOne(row, Any(alternatives.where), alternatives.params);
    EvalAllAppend(row, sql.where, sql.params, [Any(alternatives.where)], alternatives.params);
  }

  lemma {:induction false} OrSqlOfDicts(env: Env, items: seq<Json>)
    requires forall i | 0 <= i < |items| :: items[i].JDict?
    ensures OrSql(env, items).Err? ==> OrSql(env, items).error != NotADict
  {
    if items != [] {
      forall i | 0 <= i < |items[1..]| ensures items[1..][i] == items[i + 1] {}
      OrSqlOfDicts(env, items[1..]);
      OrMemberFaults(env, items[0].entries, items[0].entries);
    }
  }

  lemma {:induction false} OrMemberFaults(env: Env, member: Entries, todo: Entries)
    ensures OrMemberSql(env, member, todo).Err? ==> OrMemberSql(env, member, todo).error != NotADict
  {
    if todo != [] {
      WhereFaults(env, member);
      OrMemberFaults(env, member, todo[1..]);
    }
  }

  lemma {:induction false} WhereFaults(env: Env, query: Entries)
    ensures WhereSql(env, query).Err? ==> WhereSql(env, query).error != NotADict
  {
    if query != [] {
      if query[0].1.JDict? {
        OpsFaults(env, query[0].0, query[0].1.entries);
      }
      WhereFaults(env, query[1..]);
    }
  }

  lemma {:induction false} OpsFaults(env: Env, key: string, ops: Entries)
    ensures OpsSql(env, key, ops).Err? ==> OpsSql(env, key, ops).error != NotADict
  {
    if ops != [] {
      OpsFaults(env, key, ops[1..]);
    }
  }
}
