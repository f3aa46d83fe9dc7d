/**
 When emitted queries are SQL, and what a second call with the same dictionary answers
 (onadata/apps/viewer/parsed_instance_tools.py).
 */
module QuerySql {
  import opened Common
  import opened Grouping
  import opened QueryWhere
  import opened QueryMeaning
  import opened QueryExact

  // ---------------------------------------------------------------- the text of the clauses

  /** SQL accepts no empty parentheses. */
  predicate IsSql(c: Clause)
    decreases c
  {
    match c
    case All(parts) => parts != [] && forall p | p in parts :: IsSql(p)
    case Any(parts) => parts != [] && forall p | p in parts :: IsSql(p)
    case _ => true
  }

  predicate AllSql(where: seq<Clause>) {
    forall c | c in where :: IsSql(c)
  }

  /** Some clause is emitted for the entry, as a field condition. */
  predicate Speaks(e: (string, Json)) {
    e.1.JDict? ==> exists i | 0 <= i < |e.1.entries| :: Operand(e.1.entries[i].0).Some?
  }

  predicate AnySpeaks(query: Entries) {
    exists i | 0 <= i < |query| :: Speaks(query[i])
  }

  /** Some clause is emitted for the entry, in an alternative. */
  predicate Offers(e: (string, Json)) {
    IsTable(e) || e.1 != JList([])
  }

  predicate AnyOffers(member: Entries) {
    exists i | 0 <= i < |member| :: Offers(member[i])
  }

  /** Conditions on table columns are put in parentheses, which must not be empty. */
  predicate Bracketable(member: Entries) {
    HasTable(member) ==> AnySpeaks(member)
  }

  /** Some alternative offers a condition, and none opens empty parentheses; a text search always is SQL. */
  predicate SqlQuery(query: Entries) {
    match Get(query, "$or")
    case None => true
    case Some(v) =>
      match Iterate(v)
      case None => true
      case Some(items) =>
        || (exists i | 0 <= i < |items| :: !items[i].JDict?)
        || (&& (exists i | 0 <= i < |items| :: AnyOffers(items[i].entries))
            && (forall i | 0 <= i < |items| :: Bracketable(items[i].entries)))
  }

  lemma {:induction false} OpsAreSql(env: Env, key: string, ops: Entries)
    requires OpsSql(env, key, ops).Ok?
    ensures AllSql(OpsSql(env, key, ops).value.where)
    ensures OpsSql(env, key, ops).value.where != [] <==> Speaks((key, JDict(ops)))
  {
    if ops != [] {
      OpsAreSql(env, key, ops[1..]);
      assert forall i | 0 < i < |ops| :: ops[i] == ops[1..][i - 1];
      if Speaks((key, JDict(ops[1..]))) {
        var i :| 0 <= i < |ops[1..]| && Operand(ops[1..][i].0).Some?;
        assert Operand(ops[i + 1].0).Some?;
      }
    }
  }

  lemma {:induction false} FieldsAreSql(env: Env, query: Entries)
    requires WhereSql(env, query).Ok?
    ensures AllSql(WhereSql(env, query).value.where)
    ensures WhereSql(env, query).value.where != [] <==> AnySpeaks(query)
  {
    if query != [] {
      if query[0].1.JDict? {
        OpsAreSql(env, query[0].0, query[0].1.entries);
      }
      FieldsAreSql(env, query[1..]);
      assert forall i | 0 < i < |query| :: query[i] == query[1..][i - 1];
      if AnySpeaks(query[1..]) {
        var i :| 0 <= i < |query[1..]| && Speaks(query[1..][i]);
        assert Speaks(query[i + 1]);
      }
    }
  }

  lemma {:induction false} ItemsAreSql(key: string, items: seq<Json>)
    ensures AllSql(OrItemsSql(key, items).where)
    ensures OrItemsSql(key, items).where != [] <==> items != []
  {
    if items != [] {
      ItemsAreSql(key, items[1..]);
    }
  }

  lemma {:induction false} MemberIsSql(env: Env, member: Entries, todo: Entries)
    requires OrMemberSql(env, member, todo).Ok?
    ensures AllSql(OrMemberSql(env, member, todo).value.where) <==> (HasTable(todo) ==> AnySpeaks(member))
    ensures OrMemberSql(env, member, todo).value.where != [] <==> AnyOffers(todo)
  {
    if todo != [] {
      var (key, v) := todo[0];
      var first := OrKeySql(env, member, key, v).value;
      MemberIsSql(env, member, todo[1..]);
      HasTableStep(todo);
      if TableColumn(key).Some? {
        FieldsAreSql(env, member);
        assert first.where == [All(WhereSql(env, member).value.where)];
        assert IsSql(first.where[0]) <==> AnySpeaks(member);
      } else if v.JList? {
        ItemsAreSql(key, v.items);
      }
      AnyOffersStep(todo);
    }
  }

  lemma AnyOffersStep(todo: Entries)
    requires todo != []
    ensures AnyOffers(todo) <==> Offers(todo[0]) || AnyOffers(todo[1..])
  {
    assert forall i | 0 < i < |todo| :: todo[i] == todo[1..][i - 1];
    if i :| 0 <= i < |todo[1..]| && Offers(todo[1..][i]) {
      assert Offers(todo[i + 1]);
    }
  }

  lemma {:induction false} AlternativesAreSql(env: Env, items: seq<Json>)
    requires OrSql(env, items).Ok?
    ensures forall i | 0 <= i < |items| :: items[i].JDict?
    ensures AllSql(OrSql(env, items).value.where) <==> forall i | 0 <= i < |items| :: Bracketable(items[i].entries)
    ensures OrSql(env, items).value.where != [] <==> exists i | 0 <= i < |items| :: AnyOffers(items[i].entries)
  {
    if items != [] {
      MemberIsSql(env, items[0].entries, items[0].entries);
      AlternativesAreSql(env, items[1..]);
      assert forall i | 0 < i < |items| :: items[i] == items[1..][i - 1];
      assert forall i | 0 <= i < |items[1..]| :: items[1..][i] == items[i + 1];
    }
  }

  /** Every accepted query: the emitted text is SQL if and only if no parentheses stay empty. */
  lemma EmittedIsSqlExactly(env: Env, query: Entries)
    requires DictSql(env, query).Ok?
    ensures AllSql(DictSql(env, query).value.where) <==> SqlQuery(query)
  {
    var rest := Without(query, "$or");
    match Get(query, "$or")
    case None => FieldsAreSql(env, query);
    case Some(v) =>
      var items := Iterate(v).value;
      if OrSql(env, items).Ok? {
        AlternativesAreSql(env, items);
        FieldsAreSql(env, rest);
        var sql, alternatives := WhereSql(env, rest).value.where, OrSql(env, items).value.where;
        assert DictSql(env, query).value.where == sql + [Any(alternatives)];
        assert IsSql(Any(alternatives)) <==> alternatives != [] && AllSql(alternatives);
        assert AllSql(sql + [Any(alternatives)]) <==> AllSql(sql) && IsSql(Any(alternatives));
      } else {
        if forall i | 0 <= i < |items| :: items[i].JDict? {
          OrSqlOfDicts(env, items);
        }
      }
  }

  // ---------------------------------------------------------------- the caller's dictionary

  /** The error the alternatives raise, if any; one that is no dictionary makes the query a text search. */
  function AlternativesFault(env: Env, v: Json): Option<Fault> {
    match Iterate(v)
    case None => Some(Crash)
    case Some(items) => (match OrSql(env, items) case Ok(_) => None case Err(e) => Some(e))
  }

  /**
   Asking again with the same dictionary, which has lost its "$or": the answer is the same if and only if there was
   none, or both calls fail alike, because the field conditions do and the alternatives do not fail otherwise.
   */
  lemma SameAnswerAgainExactly(env: Env, query: Entries)
    ensures DictSql(env, Left(query)) == DictSql(env, query) <==>
              match Get(query, "$or")
              case None => true
              case Some(v) =>
                var fields, alternatives := WhereSql(env, Left(query)), AlternativesFault(env, v);
                fields.Err? && (alternatives == None || alternatives == Some(fields.error))
    ensures Get(query, "$or").Some? && DictSql(env, query).Ok? ==> DictSql(env, Left(query)) != DictSql(env, query)
  {
    var rest := Without(query, "$or");
    if v :| Get(query, "$or") == Some(v) {
      NoKeyLeft(query, "$or");
      assert DictSql(env, Left(query)) == WhereSql(env, rest);
      WhereFaults(env, rest);
      if WhereSql(env, rest).Ok? {
        NoTextSearch(env, rest);
        assert TextMatch in [TextMatch];
        AnswersDiffer(env, query, v);
      }
    }
  }

  lemma AnswersDiffer(env: Env, query: Entries, v: Json)
    requires Get(query, "$or") == Some(v) && WhereSql(env, Without(query, "$or")).Ok?
    requires TextMatch !in WhereSql(env, Without(query, "$or")).value.where
    ensures WhereSql(env, Without(query, "$or")) != DictSql(env, query)
  {
    var rest := WhereSql(env, Without(query, "$or"));
    var first := DictSql(env, query);
    if first.Ok? {
      var alternatives := OrSql(env, Iterate(v).value);
      if alternatives.Ok? {
        assert |first.value.where| == |rest.value.where| + 1;
      } else {
        assert first.value.where == [TextMatch];
        assert first.value.where[0] == TextMatch;
      }
    }
  }

  /** What the caller's dictionary is after a call. */
  function Left(query: Entries): Entries {
    if Get(query, "$or").Some? then Without(query, "$or") else query
  }

  lemma {:induction false} NoKeyLeft(query: Entries, key: string)
    ensures Get(Without(query, key), key).None?
  {
    if query != [] {
      NoKeyLeft(query[1..], key);
      if query[0].0 == key {
        assert Without(query, key) == Without(query[1..], key);
      } else {
        assert Without(query, key)[0] == query[0] && Without(query, key)[1..] == Without(query[1..], key);
      }
    }
  }

  lemma {:induction false} NoTextSearch(env: Env, query: Entries)
    requires WhereSql(env, query).Ok?
    ensures TextMatch !in WhereSql(env, query).value.where
  {
    if query != [] {
      if query[0].1.JDict? {
        NoTextSearchInOps(env, query[0].0, query[0].1.entries);
      }
      NoTextSearch(env, query[1..]);
    }
  }

  lemma {:induction false} NoTextSearchInOps(env: Env, key: string, ops: Entries)
    requires OpsSql(env, key, ops).Ok?
    ensures TextMatch !in OpsSql(env, key, ops).value.where
  {
    if ops != [] {
      NoTextSearchInOps(env, key, ops[1..]);
    }
  }

  /** The two calls themselves. */
  method AskTwice(env: Env, query: QueryDict) returns (first: Result<Sql, Fault>, second: Result<Sql, Fault>)
    modifies query
    ensures first == DictSql(env, old(query.entries)) && second == DictSql(env, Left(old(query.entries)))
    ensures Get(old(query.entries), "$or").Some? && first.Ok? ==> second != first
  {
    SameAnswerAgainExactly(env, query.entries);
    first := query.GetWhereClause(env);
    second := query.GetWhereClause(env);
  }
}
