/**
 Queries on submissions that hold values with an order: what the emitted SQL finds
 (onadata/apps/viewer/parsed_instance_tools.py).
 */
module QueryValues {
  import opened Common
  import opened Grouping
  import opened QueryWhere
  import opened QueryMeaning
  import opened QueryExact

  /**
   A submission in the database. What it keeps at a place has a rank in the order of that place's type (None is NULL),
       and
   so has what a parameter is read as there (None is a value that cannot be read); like is the database's pattern match.
   */
  datatype Submission = Submission(
    kept: Place -> Option<int>,
    read: (Place, Json) -> Option<int>,
    like: (Place, Json) -> bool,
    matches: Json -> bool)

  predicate Satisfied(h: Submission, place: Place, rel: Relation, p: Json) {
    match rel
    case Like => h.like(place, p)
    case _ =>
      && h.kept(place).Some? && h.read(place, p).Some?
      && var kept, bound := h.kept(place).value, h.read(place, p).value;
         match rel
         case Greater => kept > bound
         case NotLess => kept >= bound
         case Less => kept < bound
         case NotGreater => kept <= bound
         case Equal => kept == bound
         case Like => true
  }

  /** How the submission answers SQL. */
  function RowOf(h: Submission): Row {
    Row((place: Place, rel: Relation, p: Json) => Satisfied(h, place, rel, p), place => h.kept(place).None?, h.matches)
  }

  // ---------------------------------------------------------------- what a query asks of values

  predicate Above(a: Option<int>, b: Option<int>) { a.Some? && b.Some? && a.value > b.value }

  predicate Same(a: Option<int>, b: Option<int>) { a.Some? && a == b }

  /** $gt greater, $gte greater or equal, $lt less, $lte less or equal, $i like; any other operator finds nothing. */
  predicate Asks(env: Env, h: Submission, key: string, op: string, v: Json) {
    var place, p := Ordered(env, PlaceOf(key)), MeantArgument(env, key, v);
    && p.Some?
    && var kept, bound := h.kept(place), h.read(place, p.value);
       || (op == "$gt" && Above(kept, bound)) || (op == "$gte" && (Above(kept, bound) || Same(kept, bound)))
       || (op == "$lt" && Above(bound, kept)) || (op == "$lte" && (Above(bound, kept) || Same(kept, bound)))
       || (op == "$i" && h.like(place, p.value))
  }

  /** Null finds what is not there, a list any of its items, operators what meets them all, a value what is equal. */
  predicate Finds(env: Env, h: Submission, key: string, v: Json)
    decreases v
  {
    match v
    case JNull => h.kept(PlaceOf(key)) == None
    case JList(items) => exists i | 0 <= i < |items| :: Finds(env, h, key, items[i])
    case JDict(ops) => forall i | 0 <= i < |ops| :: Asks(env, h, key, ops[i].0, ops[i].1)
    case _ => Same(h.kept(PlaceOf(key)), h.read(PlaceOf(key), JText(env.stored(v))))
  }

  predicate FindsAll(env: Env, h: Submission, entries: Entries) {
    forall i | 0 <= i < |entries| :: Finds(env, h, entries[i].0, entries[i].1)
  }

  // ---------------------------------------------------------------- the meaning, on values

  lemma AskedOnValues(env: Env, h: Submission, key: string, op: string, v: Json)
    ensures OpMeant(env, RowOf(h), key, op, v) <==> Asks(env, h, key, op, v)
  {}

  lemma {:induction false} MeansOnValues(env: Env, h: Submission, key: string, v: Json)
    ensures Means(env, RowOf(h), key, v) <==> Finds(env, h, key, v)
    decreases v
  {
    match v
    case JList(items) =>
      forall i | 0 <= i < |items|
        ensures Means(env, RowOf(h), key, items[i]) <==> Finds(env, h, key, items[i])
      {
        MeansOnValues(env, h, key, items[i]);
      }
    case JDict(ops) =>
      forall i | 0 <= i < |ops|
        ensures OpMeant(env, RowOf(h), key, ops[i].0, ops[i].1) <==> Asks(env, h, key, ops[i].0, ops[i].1)
      {
        AskedOnValues(env, h, key, ops[i].0, ops[i].1);
      }
    case _ =>
  }

  lemma AllMeanOnValues(env: Env, h: Submission, entries: Entries)
    ensures AllMean(env, RowOf(h), entries) <==> FindsAll(env, h, entries)
  {
    forall i | 0 <= i < |entries|
      ensures Means(env, RowOf(h), entries[i].0, entries[i].1) <==> Finds(env, h, entries[i].0, entries[i].1)
    {
      MeansOnValues(env, h, entries[i].0, entries[i].1);
    }
  }

  /** A query without "$or" and with good values finds exactly the submissions whose values meet all its conditions. */
  lemma FieldsFind(env: Env, h: Submission, query: Entries)
    requires TextsLikePython(env) && Dictionary(query) && WhereSql(env, query).Ok? && GoodFields(env, query)
    ensures var sql := WhereSql(env, query).value;
            && Total(sql.where) == |sql.params|
            && (EvalAll(RowOf(h), sql.where, sql.params) <==> FindsAll(env, h, query))
  {
    QueryMeaningExactly(env, query);
    AllMeanOnValues(env, h, query);
  }

  /** With good alternatives, exactly those that meet all field conditions and at least one alternative. */
  lemma QueryFinds(env: Env, h: Submission, query: Entries, items: seq<Json>)
    requires TextsLikePython(env) && DictSql(env, query).Ok? && Get(query, "$or") == Some(JList(items))
    requires GoodFields(env, Without(query, "$or"))
    requires forall i | 0 <= i < |items| :: items[i].JDict? && GoodMember(env, items[i].entries)
    ensures var sql := DictSql(env, query).value;
            && Total(sql.where) == |sql.params|
            && (EvalAll(RowOf(h), sql.where, sql.params)
                <==> FindsAll(env, h, Without(query, "$or"))
                     && exists i | 0 <= i < |items| :: FindsAll(env, h, items[i].entries))
  {
    GoodQueryMeans(env, RowOf(h), query, items);
    AllMeanOnValues(env, h, Without(query, "$or"));
    forall i | 0 <= i < |items|
      ensures AllMean(env, RowOf(h), items[i].entries) <==> FindsAll(env, h, items[i].entries)
    {
      AllMeanOnValues(env, h, items[i].entries);
    }
  }

  /** {key: {"$gt": low, "$lte": high}} finds exactly what lies between. */
  lemma RangeFinds(env: Env, h: Submission, key: string, low: int, high: int)
    requires TextsLikePython(env) && key != "$or" && !IsDate(PlaceOf(key))
    ensures var query := [(key, JDict([("$gt", JNumber(low)), ("$lte", JNumber(high))]))];
            var place := Ordered(env, PlaceOf(key));
            var kept, a, b := h.kept(place), h.read(place, JText(env.stored(JNumber(low)))),
                h.read(place, JText(env.stored(JNumber(high))));
            && WhereSql(env, query).Ok?
            && var sql := WhereSql(env, query).value;
            && Total(sql.where) == |sql.params|
            && (EvalAll(RowOf(h), sql.where, sql.params) <==> Above(kept, a) && (Above(b, kept) || Same(kept, b)))
  {
    var ops := [("$gt", JNumber(low)), ("$lte", JNumber(high))];
    var query := [(key, JDict(ops))];
    ColumnsArePlaces(key);
    RangeIsAccepted(env, key, low, high);
    assert GoodField(env, key, JDict(ops));
    FieldsFind(env, h, query);
    assert FindsAll(env, h, query) <==> Finds(env, h, query[0].0, query[0].1);
    assert Finds(env, h, key, JDict(ops))
      <==> Asks(env, h, key, ops[0].0, ops[0].1) && Asks(env, h, key, ops[1].0, ops[1].1);
  }

  lemma RangeIsAccepted(env: Env, key: string, low: int, high: int)
    requires !KnownDate(key)
    ensures WhereSql(env, [(key, JDict([("$gt", JNumber(low)), ("$lte", JNumber(high))]))]).Ok?
  {
    var ops := [("$gt", JNumber(low)), ("$lte", JNumber(high))];
    assert ops[1..] == [("$lte", JNumber(high))] && ops[1..][1..] == [];
    assert OpsSql(env, key, ops[1..][1..]).Ok? && OpsSql(env, key, ops[1..]).Ok? && OpsSql(env, key, ops).Ok?;
    var query := [(key, JDict(ops))];
    assert query[1..] == [];
  }
}
