/**
 What a query means, entry by entry and wherever the entry stands, and exactly when the emitted SQL says so
 (onadata/apps/viewer/parsed_instance_tools.py).
 */
module QueryExact {
  import opened Common
  import opened Grouping
  import opened QueryWhere
  import opened QueryMeaning

  // ---------------------------------------------------------------- the meaning of an entry

  /** What a key of a query asks for: a field of the submission, or an answer. */
  function PlaceOf(key: string): Place {
    match key
    case "_submission_time" => Created
    case "_date_modified" => Modified
    case "_id" => Id
    case "_version" => Version
    case "_last_edited" => Edited
    case _ => Answer(key, NoCast)
  }

  /** Operators compare whole and decimal numbers as numbers. */
  function Ordered(env: Env, place: Place): Place {
    if place.Answer? && place.key in env.integers then Answer(place.key, AsInt)
    else if place.Answer? && place.key in env.decimals then Answer(place.key, AsDecimal)
    else place
  }

  /** What an operator of a query asks. */
  function Asked(op: string): Option<Relation> {
    match op
    case "$gt" => Some(Greater)
    case "$gte" => Some(NotLess)
    case "$lt" => Some(Less)
    case "$lte" => Some(NotGreater)
    case "$i" => Some(Like)
    case _ => None
  }

  predicate IsDate(place: Place) { place.Created? || place.Modified? || place.Edited? }

  /** The field equals a value's text. */
  predicate Equals(row: Row, key: string, text: string) {
    row.compare(PlaceOf(key), Equal, JText(text))
  }

  predicate Missing(row: Row, key: string) {
    row.isNull(PlaceOf(key))
  }

  /** What an operator compares the field with: a date, or the text of a stored value. */
  function MeantArgument(env: Env, key: string, v: Json): Option<Json> {
    if !IsDate(PlaceOf(key)) then Some(JText(env.stored(v)))
    else match v
      case JText(s) => (match env.date(s) case Some(d) => Some(JText(d)) case None => None)
      case _ => None
  }

  predicate OpMeant(env: Env, row: Row, key: string, op: string, v: Json) {
    && Asked(op).Some? && MeantArgument(env, key, v).Some?
    && row.compare(Ordered(env, PlaceOf(key)), Asked(op).value, MeantArgument(env, key, v).value)
  }

  predicate OpsMeant(env: Env, row: Row, key: string, ops: Entries) {
    forall i | 0 <= i < |ops| :: OpMeant(env, row, key, ops[i].0, ops[i].1)
  }

  // ---------------------------------------------------------------- the code's tables

  /** A table column is where the submission keeps what the key asks for. */
  lemma ColumnsArePlaces(key: string)
    ensures TableColumn(key).Some? <==> !PlaceOf(key).Answer?
    ensures TableColumn(key).Some? ==> TablePlace(TableColumn(key).value) == Some(PlaceOf(key))
    ensures TableColumn(key).None? ==> PlaceOf(key) == Answer(key, NoCast)
    ensures KnownDate(key) <==> IsDate(PlaceOf(key))
  {}

  /** The emitted column, with its cast, is where operators look. */
  lemma OperatorColumn(env: Env, key: string, k: string)
    requires TableColumn(key).None? ==> k == key
    ensures ColumnPlace(ColumnFor(env, key), k) == Some(Ordered(env, PlaceOf(key)))
  {
    ColumnsArePlaces(key);
  }

  /** The emitted operator compares what the query's operator asks. */
  lemma OperatorsAreAsked(op: string)
    ensures Operand(op).Some? <==> Asked(op).Some?
    ensures Operand(op).Some? ==> Related(Operand(op).value) == Asked(op)
  {}

  /** What an emitted equality compares. */
  lemma EqualityIs(env: Env, row: Row, key: string, v: Json)
    requires !v.JDict?
    ensures FieldEmitted(env, row, key, v)
       <==> if v.JNull? && PlaceOf(key).Answer? then row.isNull(PlaceOf(key))
            else row.compare(PlaceOf(key), Equal, JText(env.text(v)))
  {
    ColumnsArePlaces(key);
  }

  /** What an emitted operator compares. */
  lemma OperatorIs(env: Env, row: Row, key: string, op: string, p: Json)
    requires Operand(op).Some?
    ensures Asked(op).Some?
    ensures Holds(env, row, key, Operand(op).value, p) <==> row.compare(Ordered(env, PlaceOf(key)), Asked(op).value, p)
  {
    OperatorsAreAsked(op);
    OperatorColumn(env, key, if TableColumn(key).Some? then "" else key);
  }

  /** What an emitted alternative on an answer compares. */
  lemma AlternativeIs(row: Row, key: string, p: Json)
    requires TableColumn(key).None?
    ensures Compared(row, InJson(NoCast), key, "=", p) <==> row.compare(PlaceOf(key), Equal, p)
    ensures PlaceOf(key) == Answer(key, NoCast)
  {
    ColumnsArePlaces(key);
  }

  /** Null asks for a missing value, a list for any of its items, a dictionary for all its operators, and any other
      value for a field that holds it. */
  predicate Means(env: Env, row: Row, key: string, v: Json)
    decreases v
  {
    match v
    case JNull => Missing(row, key)
    case JList(items) => exists i | 0 <= i < |items| :: Means(env, row, key, items[i])
    case JDict(ops) => OpsMeant(env, row, key, ops)
    case _ => Equals(row, key, env.stored(v))
  }

  predicate AllMean(env: Env, row: Row, entries: Entries) {
    forall i | 0 <= i < |entries| :: Means(env, row, entries[i].0, entries[i].1)
  }

  /** A single value in a list, or in a list of its lists. */
  predicate InList(v: Json, w: Json)
    decreases v
  {
    match v
    case JList(items) => exists i | 0 <= i < |items| :: InList(items[i], w)
    case JDict(_) => false
    case _ => v == w
  }

  /** Python's str() and the stored texts: texts and whole numbers agree, booleans and null do not, and str() of a list
      is not the stored text of a value in it. */
  ghost predicate TextsLikePython(env: Env) {
    && (forall s: string :: env.text(JText(s)) == s == env.stored(JText(s)))
    && (forall n: int :: env.text(JNumber(n)) == env.stored(JNumber(n)))
    && env.text(JBool(true)) == "True" && env.stored(JBool(true)) == "true"
    && env.text(JBool(false)) == "False" && env.stored(JBool(false)) == "false"
    && env.text(JNull) == "None" && env.stored(JNull) == "null"
    && (forall v: Json, w: Json :: v.JList? && InList(v, w) ==> env.stored(w) != env.text(v))
  }

  /** Both texts of a value are one. */
  predicate SameText(env: Env, v: Json) { env.text(v) == env.stored(v) }

  // ---------------------------------------------------------------- values that the code gets right

  /** Operators that are known, with values whose texts are stored as str() writes them, or dates. */
  predicate GoodOps(env: Env, key: string, ops: Entries) {
    && (forall i | 0 <= i < |ops| :: Asked(ops[i].0).Some?)
    && (IsDate(PlaceOf(key)) || forall i | 0 <= i < |ops| :: SameText(env, ops[i].1))
  }

  /** Outside "$or": good operators, null on a JSON field, single values stored as str() writes them; never a list. */
  predicate GoodField(env: Env, key: string, v: Json) {
    match v
    case JNull => PlaceOf(key).Answer?
    case JList(_) => false
    case JDict(ops) => GoodOps(env, key, ops)
    case _ => SameText(env, v)
  }

  predicate GoodFields(env: Env, query: Entries) {
    forall i | 0 <= i < |query| :: GoodField(env, query[i].0, query[i].1)
  }

  /** JSON objects, whose duplicate keys are merged: the keys differ, also those of operators. */
  ghost predicate Dictionary(query: Entries) {
    && DistinctKeys(query)
    && forall i | 0 <= i < |query| :: query[i].1.JDict? ==> DistinctKeys(query[i].1.entries)
  }

  /** The only key of an alternative, a JSON field: null, a text, or a list of texts; never an operator or a number. */
  predicate GoodAlternative(v: Json) {
    match v
    case JNull => true
    case JText(_) => true
    case JList(items) => forall i | 0 <= i < |items| :: items[i].JText?
    case _ => false
  }

  /** Says nothing: an empty operator dictionary, or a list that offers one. */
  predicate Vacuous(v: Json)
    decreases v
  {
    match v
    case JDict(ops) => ops == []
    case JList(items) => exists i | 0 <= i < |items| :: Vacuous(items[i])
    case _ => false
  }

  predicate IsTable(e: (string, Json)) {
    TableColumn(e.0).Some?
  }

  predicate HasTable(member: Entries) {
    exists i | 0 <= i < |member| :: IsTable(member[i])
  }

  predicate HasField(member: Entries) {
    exists i | 0 <= i < |member| :: !IsTable(member[i])
  }

  /** An alternative on JSON fields only: one field with a good value, or nothing but empty lists. */
  predicate GoodFieldMember(member: Entries) {
    || (|member| == 1 && GoodAlternative(member[0].1))
    || (member != [] && forall i | 0 <= i < |member| :: member[i].1 == JList([]))
  }

  /** The entry of the only JSON field of an alternative whose table columns are not restricted. */
  predicate LoneField(member: Entries, j: nat)
    requires j < |member|
  {
    && !IsTable(member[j]) && (member[j].1.JNull? || member[j].1.JText?)
    && forall i | 0 <= i < |member| :: i != j ==> IsTable(member[i]) && Vacuous(member[i].1)
  }

  /** An alternative on both kinds of fields: no condition at all, or one on a single JSON field. */
  predicate GoodMixedMember(member: Entries) {
    || (forall i | 0 <= i < |member| :: member[i].1 == JDict([]))
    || (exists j | 0 <= j < |member| :: LoneField(member, j))
  }

  predicate GoodMember(env: Env, member: Entries) {
    if !HasTable(member) then GoodFieldMember(member)
    else if !HasField(member) then GoodFields(env, member)
    else GoodMixedMember(member)
  }

  // ---------------------------------------------------------------- telling rows

  /** The place of a field, however cast. */
  predicate At(place: Place, key: string) {
    if PlaceOf(key).Answer? then place.Answer? && place.key == key else place == PlaceOf(key)
  }

  /** Nothing holds. */
  function Silent(): Row {
    Row((place: Place, rel: Relation, p: Json) => false, place => false, p => false)
  }

  /** Everything holds, but only at one field. */
  function Only(key: string): Row {
    Row((place: Place, rel: Relation, p: Json) => At(place, key), place => At(place, key), p => false)
  }

  /** Only equality with one parameter holds, at one field. */
  function Raw(key: string, raw: Json): Row {
    Row((place: Place, rel: Relation, p: Json) => At(place, key) && rel == Equal
        && p == raw, place => false, p => false)
  }

  /** Everything holds elsewhere; at the field only equality with a text, if one is given. */
  function Elsewhere(key: string, text: Option<string>): Row {
    Row((place: Place, rel: Relation, p: Json) =>
          !At(place, key) || (text.Some? && rel == Equal && p == JText(text.value)),
        place => !At(place, key), p => false)
  }

  /** At a field, nothing holds but perhaps equality with parameters that are not stored texts of the value. */
  ghost predicate Quiet(env: Env, row: Row, key: string, v: Json) {
    && !Missing(row, key)
    && forall place, rel, p :: At(place, key) && row.compare(place, rel, p) ==> rel == Equal && NoText(env, v, p)
  }

  ghost predicate NoText(env: Env, v: Json, p: Json) {
    p.JText? ==> forall w :: InList(v, w) ==> env.stored(w) != p.s
  }

  lemma QuietItem(env: Env, row: Row, key: string, items: seq<Json>, i: nat)
    requires Quiet(env, row, key, JList(items)) && i < |items|
    ensures Quiet(env, row, key, items[i])
  {
    forall w | InList(items[i], w)
      ensures InList(JList(items), w)
    {}
    forall place, rel, p | At(place, key) && row.compare(place, rel, p)
      ensures rel == Equal && NoText(env, items[i], p)
    {
      assert NoText(env, JList(items), p);
    }
  }

  /** On a quiet field exactly the entries that say nothing hold. */
  lemma {:induction false} QuietMeaning(env: Env, row: Row, key: string, v: Json)
    requires Quiet(env, row, key, v)
    ensures Means(env, row, key, v) <==> Vacuous(v)
    decreases v
  {
    match v
    case JNull =>
    case JList(items) =>
      forall i | 0 <= i < |items|
        ensures Means(env, row, key, items[i]) <==> Vacuous(items[i])
      {
        QuietItem(env, row, key, items, i);
        QuietMeaning(env, row, key, items[i]);
      }
    case JDict(ops) =>
      if ops != [] {
        QuietOps(env, row, key, ops);
      }
    case _ =>
      assert InList(v, v) && !NoText(env, v, JText(env.stored(v)));
  }

  lemma QuietOps(env: Env, row: Row, key: string, ops: Entries)
    requires Quiet(env, row, key, JDict(ops)) && ops != []
    ensures !OpsMeant(env, row, key, ops)
  {
    assert At(Ordered(env, PlaceOf(key)), key) && Asked(ops[0].0) != Some(Equal);
    assert OpsMeant(env, row, key, ops) ==> OpMeant(env, row, key, ops[0].0, ops[0].1);
  }

  // ---------------------------------------------------------------- outside "$or"

  lemma GoodFieldMeans(env: Env, row: Row, key: string, v: Json)
    requires GoodField(env, key, v)
    ensures FieldEmitted(env, row, key, v) <==> Means(env, row, key, v)
  {
    if v.JDict? {
      GoodOpsMean(env, row, key, v.entries);
    } else {
      EqualityIs(env, row, key, v);
    }
  }

  lemma GoodOpsMean(env: Env, row: Row, key: string, ops: Entries)
    requires GoodOps(env, key, ops)
    ensures OpsMeaning(env, row, key, ops) <==> OpsMeant(env, row, key, ops)
  {
    forall i | 0 <= i < |ops|
      ensures Operand(ops[i].0).Some?
      ensures Argument(env, key, ops[i].1).Ok? <==> MeantArgument(env, key, ops[i].1).Some?
      ensures Argument(env, key, ops[i].1).Ok? ==>
          (Holds(env, row, key, Operand(ops[i].0).value, Argument(env, key, ops[i].1).value)
           <==> OpMeant(env, row, key, ops[i].0, ops[i].1))
    {
      OperatorsAreAsked(ops[i].0);
      ColumnsArePlaces(key);
      GoodArgument(env, key, ops[i].1);
      if Argument(env, key, ops[i].1).Ok? {
        OperatorIs(env, row, key, ops[i].0, Argument(env, key, ops[i].1).value);
      }
    }
  }

  lemma GoodArgument(env: Env, key: string, v: Json)
    requires IsDate(PlaceOf(key)) || SameText(env, v)
    ensures Argument(env, key, v).Ok? <==> MeantArgument(env, key, v).Some?
    ensures Argument(env, key, v).Ok? ==> MeantArgument(env, key, v) == Some(Argument(env, key, v).value)
  {
    ColumnsArePlaces(key);
  }

  lemma AskedAreKnown(ops: Entries)
    requires forall i | 0 <= i < |ops| :: Asked(ops[i].0).Some?
    ensures KnownOps(ops)
  {
    forall i | 0 <= i < |ops|
      ensures Operand(ops[i].0).Some?
    {
      OperatorsAreAsked(ops[i].0);
    }
  }

  lemma GoodFieldsMean(env: Env, row: Row, query: Entries)
    requires GoodFields(env, query)
    ensures KnownQuery(query)
    ensures QueryEmitted(env, row, query) <==> AllMean(env, row, query)
  {
    forall i | 0 <= i < |query| && query[i].1.JDict?
      ensures KnownOps(query[i].1.entries)
    {
      AskedAreKnown(query[i].1.entries);
    }
    forall i | 0 <= i < |query|
      ensures FieldEmitted(env, row, query[i].0, query[i].1) <==> Means(env, row, query[i].0, query[i].1)
    {
      GoodFieldMeans(env, row, query[i].0, query[i].1);
    }
  }

  /** An accepted query's dates can be read. */
  predicate ReadableOps(env: Env, key: string, v: Json) {
    v.JDict? ==> forall i | 0 <= i < |v.entries| :: Argument(env, key, v.entries[i].1).Ok?
  }

  lemma {:induction false} AcceptedOps(env: Env, key: string, ops: Entries)
    requires OpsSql(env, key, ops).Ok?
    ensures ReadableOps(env, key, JDict(ops))
  {
    if ops != [] {
      AcceptedOps(env, key, ops[1..]);
      assert forall i | 0 < i < |ops| :: ops[i] == ops[1..][i - 1];
    }
  }

  lemma {:induction false} AcceptedFields(env: Env, query: Entries)
    requires WhereSql(env, query).Ok?
    ensures forall i | 0 <= i < |query| :: ReadableOps(env, query[i].0, query[i].1)
  {
    if query != [] {
      if query[0].1.JDict? {
        AcceptedOps(env, query[0].0, query[0].1.entries);
      }
      AcceptedFields(env, query[1..]);
      assert forall i | 0 < i < |query| :: query[i] == query[1..][i - 1];
    }
  }

  lemma PlacesDiffer(env: Env, key: string, other: string)
    requires other != key
    ensures !At(PlaceOf(other), key) && !At(Ordered(env, PlaceOf(other)), key)
  {}

  /** Everything but one field answers yes. */
  ghost predicate YesElsewhere(row: Row, key: string) {
    && (forall place, rel, p :: !At(place, key) ==> row.compare(place, rel, p))
    && (forall place :: !At(place, key) ==> row.isNull(place))
  }

  /** Then the conditions on other fields are emitted and hold. */
  lemma OthersHold(env: Env, row: Row, key: string, other: string, v: Json)
    requires YesElsewhere(row, key) && other != key && ReadableOps(env, other, v) && (v.JDict? ==> KnownOps(v.entries))
    ensures FieldEmitted(env, row, other, v)
    ensures GoodField(env, other, v) ==> Means(env, row, other, v)
  {
    PlacesDiffer(env, key, other);
    if v.JDict? {
      forall i | 0 <= i < |v.entries|
        ensures Holds(env, row, other, Operand(v.entries[i].0).value, Argument(env, other, v.entries[i].1).value)
      {
        OperatorIs(env, row, other, v.entries[i].0, Argument(env, other, v.entries[i].1).value);
      }
    } else {
      EqualityIs(env, row, other, v);
    }
    if GoodField(env, other, v) {
      GoodFieldMeans(env, row, other, v);
    }
  }

  /** A list that says nothing is emitted as a comparison: a row where only this field answers no. */
  lemma VacuousListTells(env: Env, query: Entries, j: nat) returns (row: Row)
    requires DistinctKeys(query) && KnownQuery(query) && WhereSql(env, query).Ok?
    requires j < |query| && !GoodField(env, query[j].0, query[j].1) && Vacuous(query[j].1)
    requires forall i | 0 <= i < |query| :: !GoodField(env, query[i].0, query[i].1) ==> Vacuous(query[i].1)
    ensures !QueryEmitted(env, row, query) && AllMean(env, row, query)
  {
    var key := query[j].0;
    row := Elsewhere(key, None);
    AcceptedFields(env, query);
    forall i | 0 <= i < |query|
      ensures Means(env, row, query[i].0, query[i].1)
    {
      if GoodField(env, query[i].0, query[i].1) {
        OthersHold(env, row, key, query[i].0, query[i].1);
      } else {
        VacuousHolds(env, row, query[i].0, query[i].1);
      }
    }
    ListIsCompared(env, key, query[j].1);
    assert !FieldEmitted(env, row, query[j].0, query[j].1);
  }

  lemma ListIsCompared(env: Env, key: string, v: Json)
    requires v.JList?
    ensures !FieldEmitted(env, Elsewhere(key, None), key, v)
  {
    EqualityIs(env, Elsewhere(key, None), key, v);
  }

  /** Another bad value: a row where this field answers yes to what is emitted, and no to what is meant. */
  lemma BadFieldTells(env: Env, query: Entries, j: nat) returns (row: Row)
    requires TextsLikePython(env) && Dictionary(query) && KnownQuery(query) && WhereSql(env, query).Ok?
    requires j < |query| && !GoodField(env, query[j].0, query[j].1) && !Vacuous(query[j].1)
    ensures QueryEmitted(env, row, query) && !AllMean(env, row, query)
  {
    var (key, v) := query[j];
    AcceptedFields(env, query);
    if v.JDict? {
      row := BadOpsTell(env, key, v.entries);
    } else {
      row := Elsewhere(key, Some(env.text(v)));
      NotAtThisField(env, key, v);
      EqualityIs(env, row, key, v);
    }
    forall i | 0 <= i < |query|
      ensures FieldEmitted(env, row, query[i].0, query[i].1)
    {
      if i != j {
        OthersHold(env, row, key, query[i].0, query[i].1);
      }
    }
  }

  /** Everything holds, but one comparison at one field. */
  function Except(key: string, except: Relation, text: string): Row {
    Row((place: Place, rel: Relation, p: Json) => !(At(place, key) && rel == except && p == JText(text)),
        place => true, p => false)
  }

  /** An operator's value whose text is stored in another way. */
  lemma BadOpsTell(env: Env, key: string, ops: Entries) returns (row: Row)
    requires KnownOps(ops) && DistinctKeys(ops) && !GoodOps(env, key, ops) && ReadableOps(env, key, JDict(ops))
    ensures YesElsewhere(row, key) && FieldEmitted(env, row, key, JDict(ops)) && !Means(env, row, key, JDict(ops))
  {
    ColumnsArePlaces(key);
    forall i | 0 <= i < |ops|
      ensures Asked(ops[i].0).Some?
    {
      OperatorsAreAsked(ops[i].0);
    }
    var b :| 0 <= b < |ops| && !SameText(env, ops[b].1);
    row := Except(key, Asked(ops[b].0).value, env.stored(ops[b].1));
    forall i | 0 <= i < |ops|
      ensures Holds(env, row, key, Operand(ops[i].0).value, Argument(env, key, ops[i].1).value)
    {
      OperatorIs(env, row, key, ops[i].0, Argument(env, key, ops[i].1).value);
      if i != b && Asked(ops[i].0) == Asked(ops[b].0) {
        AskedDiffer(ops[i].0, ops[b].0);
      }
    }
    assert At(Ordered(env, PlaceOf(key)), key);
    assert !OpMeant(env, row, key, ops[b].0, ops[b].1);
  }

  lemma AskedDiffer(a: string, b: string)
    requires Asked(a).Some? && Asked(a) == Asked(b)
    ensures a == b
  {}

  lemma {:induction false} VacuousHolds(env: Env, row: Row, key: string, v: Json)
    requires Vacuous(v)
    ensures Means(env, row, key, v)
    decreases v
  {
    if v.JList? {
      var i :| 0 <= i < |v.items| && Vacuous(v.items[i]);
      VacuousHolds(env, row, key, v.items[i]);
    }
  }

  /** Null on a table column, a list that says something and a value stored in another way are not met by equality
      with str(). */
  lemma NotAtThisField(env: Env, key: string, v: Json)
    requires TextsLikePython(env) && !GoodField(env, key, v) && !Vacuous(v) && !v.JDict?
    ensures !Means(env, Elsewhere(key, Some(env.text(v))), key, v)
  {
    var row := Elsewhere(key, Some(env.text(v)));
    if v.JList? {
      forall w | InList(v, w)
        ensures env.stored(w) != env.text(v)
      {}
      assert NoText(env, v, JText(env.text(v)));
      QuietMeaning(env, row, key, v);
    }
  }

  /**
   A query without "$or": placeholders match and the clauses mean the query on every row if and only if every operator
   is known, nothing asks for null in a table column, no value is a list, and str() of each value is its stored text.
   */
  lemma QueryMeaningExactly(env: Env, query: Entries)
    requires TextsLikePython(env) && Dictionary(query) && WhereSql(env, query).Ok?
    ensures var sql := WhereSql(env, query).value;
            (&& Total(sql.where) == |sql.params|
             && forall row :: EvalAll(row, sql.where, sql.params) <==> AllMean(env, row, query))
            <==> GoodFields(env, query)
  {
    var sql := WhereSql(env, query).value;
    WhereEmits(env, Silent(), query);
    if KnownQuery(query) {
      forall row
        ensures EvalAll(row, sql.where, sql.params) <==> QueryEmitted(env, row, query)
      {
        WhereEmits(env, row, query);
      }
      SameMeaningExactly(env, query);
    } else {
      var i :| 0 <= i < |query| && query[i].1.JDict? && !KnownOps(query[i].1.entries);
      UnknownIsNotGood(env, query[i].0, query[i].1.entries);
      assert !GoodField(env, query[i].0, query[i].1);
    }
  }

  lemma UnknownIsNotGood(env: Env, key: string, ops: Entries)
    requires !KnownOps(ops)
    ensures !GoodOps(env, key, ops)
  {
    var i :| 0 <= i < |ops| && Operand(ops[i].0).None?;
    OperatorsAreAsked(ops[i].0);
  }

  lemma SameMeaningExactly(env: Env, query: Entries)
    requires TextsLikePython(env) && Dictionary(query) && KnownQuery(query) && WhereSql(env, query).Ok?
    ensures (forall row :: QueryEmitted(env, row, query) <==> AllMean(env, row, query)) <==> GoodFields(env, query)
  {
    if GoodFields(env, query) {
      forall row
        ensures QueryEmitted(env, row, query) <==> AllMean(env, row, query)
      {
        GoodFieldsMean(env, row, query);
      }
    } else if j :| 0 <= j < |query| && !GoodField(env, query[j].0, query[j].1) && !Vacuous(query[j].1) {
      var row := BadFieldTells(env, query, j);
    } else {
      var j :| 0 <= j < |query| && !GoodField(env, query[j].0, query[j].1);
      var row := VacuousListTells(env, query, j);
    }
  }

  // ---------------------------------------------------------------- inside "$or"

  lemma NoTableKeys(env: Env, row: Row, member: Entries)
    requires !HasTable(member)
    ensures EmittedMember(env, row, member)
        <==> exists i | 0 <= i < |member| :: KeyEmitted(row, member[i].0, member[i].1)
  {
    assert forall i | 0 <= i < |member| :: !IsTable(member[i]);
  }

  /** An alternative on one JSON field: a good value is emitted as what it means. */
  lemma GoodAlternativeMeans(env: Env, row: Row, key: string, v: Json)
    requires TextsLikePython(env) && GoodAlternative(v) && TableColumn(key).None?
    ensures KeyEmitted(row, key, v) <==> Means(env, row, key, v)
  {
    AlternativeIs(row, key, v);
    if v.JList? {
      forall i | 0 <= i < |v.items|
        ensures Compared(row, InJson(NoCast), key, "=", v.items[i]) <==> Means(env, row, key, v.items[i])
      {
        AlternativeIs(row, key, v.items[i]);
        assert env.text(v.items[i]) == v.items[i].s;
      }
    }
  }

  /** Any other value tells: a row where only equality with a raw parameter holds, or none. */
  lemma BadAlternativeTells(env: Env, key: string, v: Json) returns (row: Row)
    requires TextsLikePython(env) && !GoodAlternative(v) && TableColumn(key).None?
    ensures KeyEmitted(row, key, v) != Means(env, row, key, v)
    ensures !v.JList? && !Vacuous(v) ==> KeyEmitted(row, key, v)
    ensures row == Silent() || exists p :: row == Raw(key, p)
  {
    if Vacuous(v) {
      row := Silent();
      VacuousHolds(env, row, key, v);
    } else {
      var raw := v;
      if v.JList? {
        var i :| 0 <= i < |v.items| && !v.items[i].JText?;
        raw := v.items[i];
      }
      row := Raw(key, raw);
      AlternativeIs(row, key, raw);
      assert At(PlaceOf(key), key) && row.compare(PlaceOf(key), Equal, raw);
      assert Compared(row, InJson(NoCast), key, "=", raw);
      QuietMeaning(env, row, key, v);
    }
  }

  /** Only this field answers: what is emitted for it holds, and other entries hold when they say nothing. */
  lemma OnlyThisField(env: Env, member: Entries, j: nat, i: nat)
    requires TextsLikePython(env) && Dictionary(member) && j < |member| && i < |member| && i != j
    requires !IsTable(member[j]) && member[j].1 != JList([])
    ensures KeyEmitted(Only(member[j].0), member[j].0, member[j].1)
    ensures Means(env, Only(member[j].0), member[i].0, member[i].1) <==> Vacuous(member[i].1)
  {
    var row := Only(member[j].0);
    AlternativeIs(row, member[j].0, member[j].1);
    if member[j].1.JList? {
      AlternativeIs(row, member[j].0, member[j].1.items[0]);
      assert Compared(row, InJson(NoCast), member[j].0, "=", member[j].1.items[0]);
    }
    PlacesDiffer(env, member[j].0, member[i].0);
    QuietMeaning(env, row, member[i].0, member[i].1);
  }

  lemma AllVacuousHold(env: Env, row: Row, member: Entries)
    requires forall i | 0 <= i < |member| :: Vacuous(member[i].1)
    ensures AllMean(env, row, member)
  {
    forall i | 0 <= i < |member|
      ensures Means(env, row, member[i].0, member[i].1)
    {
      VacuousHolds(env, row, member[i].0, member[i].1);
    }
  }

  lemma FieldEmitsKey(env: Env, row: Row, member: Entries, j: nat)
    requires j < |member| && !IsTable(member[j]) && KeyEmitted(row, member[j].0, member[j].1)
    ensures EmittedMember(env, row, member)
  {
    assert EmittedKey(env, row, member, member[j].0, member[j].1);
  }

  /** JSON fields only, with several conditions or a bad one. */
  lemma FieldMemberTells(env: Env, member: Entries) returns (row: Row)
    requires TextsLikePython(env) && Dictionary(member) && !HasTable(member) && !GoodFieldMember(member)
    ensures EmittedMember(env, row, member) != AllMean(env, row, member)
  {
    assert forall i | 0 <= i < |member| :: !IsTable(member[i]);
    if member == [] {
      row := Silent();
    } else if |member| == 1 {
      row := BadAlternativeTells(env, member[0].0, member[0].1);
      assert EmittedMember(env, row, member) <==> EmittedKey(env, row, member, member[0].0, member[0].1);
      assert AllMean(env, row, member) <==> Means(env, row, member[0].0, member[0].1);
    } else {
      row := SeveralFieldsTell(env, member);
    }
  }

  lemma SeveralFieldsTell(env: Env, member: Entries) returns (row: Row)
    requires TextsLikePython(env) && Dictionary(member) && !HasTable(member) && |member| > 1
    requires !forall i | 0 <= i < |member| :: member[i].1 == JList([])
    ensures EmittedMember(env, row, member) != AllMean(env, row, member)
  {
    assert forall i | 0 <= i < |member| :: !IsTable(member[i]);
    if forall i | 0 <= i < |member| :: Vacuous(member[i].1) {
      row := Silent();
      AllVacuousHold(env, row, member);
      NoTableKeys(env, row, member);
    } else {
      var j, i := TwoFields(member);
      row := Only(member[j].0);
      OnlyThisField(env, member, j, i);
      FieldEmitsKey(env, row, member, j);
      assert !Means(env, row, member[i].0, member[i].1);
    }
  }

  /** A field whose condition can hold, and another one that asks for something. */
  lemma TwoFields(member: Entries) returns (j: nat, i: nat)
    requires |member| > 1
    requires exists k | 0 <= k < |member| :: member[k].1 != JList([])
    requires exists k | 0 <= k < |member| :: !Vacuous(member[k].1)
    ensures j < |member| && i < |member| && i != j && member[j].1 != JList([]) && !Vacuous(member[i].1)
  {
    var k :| 0 <= k < |member| && member[k].1 != JList([]);
    if h :| 0 <= h < |member| && h != k && !Vacuous(member[h].1) {
      j, i := k, h;
    } else {
      i := k;
      j := if k == 0 then 1 else 0;
      assert Vacuous(member[j].1);
    }
  }

  /** Everything holds. */
  function Loud(): Row {
    Row((place: Place, rel: Relation, p: Json) => true, place => true, p => true)
  }

  lemma LoudEmits(env: Env, member: Entries)
    requires WhereSql(env, member).Ok? && KnownQuery(member)
    ensures QueryEmitted(env, Loud(), member)
  {
    AcceptedFields(env, member);
    forall i | 0 <= i < |member|
      ensures FieldEmitted(env, Loud(), member[i].0, member[i].1)
    {
      LoudField(env, member[i].0, member[i].1);
    }
  }

  lemma LoudField(env: Env, key: string, v: Json)
    requires ReadableOps(env, key, v) && (v.JDict? ==> KnownOps(v.entries))
    ensures FieldEmitted(env, Loud(), key, v)
  {
    if v.JDict? {
      forall i | 0 <= i < |v.entries|
        ensures Holds(env, Loud(), key, Operand(v.entries[i].0).value, Argument(env, key, v.entries[i].1).value)
      {
        OperatorIs(env, Loud(), key, v.entries[i].0, Argument(env, key, v.entries[i].1).value);
      }
    } else {
      EqualityIs(env, Loud(), key, v);
    }
  }

  lemma TableEmitsAll(env: Env, row: Row, member: Entries)
    requires HasTable(member) && QueryEmitted(env, row, member)
    ensures EmittedMember(env, row, member)
  {
    var i :| 0 <= i < |member| && IsTable(member[i]);
    assert EmittedKey(env, row, member, member[i].0, member[i].1);
  }

  /** Table columns and JSON fields together: besides the good cases there is always a telling row. */
  lemma MixedMemberTells(env: Env, member: Entries) returns (row: Row)
    requires TextsLikePython(env) && Dictionary(member) && KnownQuery(member) && WhereSql(env, member).Ok?
    requires HasTable(member) && HasField(member) && !GoodMixedMember(member)
    ensures EmittedMember(env, row, member) != AllMean(env, row, member)
  {
    if j :| 0 <= j < |member| && member[j].1 == JList([]) && !IsTable(member[j]) {
      row := Loud();
      LoudEmits(env, member);
      TableEmitsAll(env, row, member);
      assert !Means(env, row, member[j].0, member[j].1);
    } else if j, i :| 0 <= j < |member| && 0 <= i < |member| && i != j && !IsTable(member[j]) && !Vacuous(member[i].1) {
      row := Only(member[j].0);
      OnlyThisField(env, member, j, i);
      FieldEmitsKey(env, row, member, j);
      assert !Means(env, row, member[i].0, member[i].1);
    } else if i :| 0 <= i < |member| && !Vacuous(member[i].1) {
      row := LoneFieldTells(env, member, i);
    } else {
      row := Silent();
      AllVacuousHold(env, row, member);
      SilentMixed(env, member);
    }
  }

  /** The only field that asks for something asks for more than null or a text. */
  lemma LoneFieldTells(env: Env, member: Entries, i: nat) returns (row: Row)
    requires TextsLikePython(env) && Dictionary(member) && KnownQuery(member) && WhereSql(env, member).Ok?
    requires HasTable(member) && HasField(member) && !GoodMixedMember(member)
    requires i < |member| && !Vacuous(member[i].1)
    requires forall j, h | 0 <= j < |member| && 0 <= h < |member| && h != j && !IsTable(member[j]) ::
        Vacuous(member[h].1)
    ensures EmittedMember(env, row, member) && !AllMean(env, row, member)
  {
    var k :| 0 <= k < |member| && !IsTable(member[k]);
    assert k == i;
    assert !LoneField(member, i);
    if member[i].1.JList? {
      row := BadFieldTells(env, member, i);
      TableEmitsAll(env, row, member);
    } else {
      row := BadAlternativeTells(env, member[i].0, member[i].1);
      FieldEmitsKey(env, row, member, i);
      assert !Means(env, row, member[i].0, member[i].1);
    }
  }

  /** Nothing is asked, but a list is compared all the same. */
  lemma SilentMixed(env: Env, member: Entries)
    requires HasTable(member) && !GoodMixedMember(member) && forall i | 0 <= i < |member| :: Vacuous(member[i].1)
    ensures !EmittedMember(env, Silent(), member)
  {
    var i :| 0 <= i < |member| && member[i].1 != JDict([]);
    assert !FieldEmitted(env, Silent(), member[i].0, member[i].1);
  }

  lemma GoodMixedMeans(env: Env, row: Row, member: Entries)
    requires TextsLikePython(env) && HasTable(member) && GoodMixedMember(member)
    ensures KnownQuery(member)
    ensures EmittedMember(env, row, member) <==> AllMean(env, row, member)
  {
    if forall i | 0 <= i < |member| :: member[i].1 == JDict([]) {
      TableEmitsAll(env, row, member);
    } else {
      var j :| 0 <= j < |member| && LoneField(member, j);
      var (key, v) := member[j];
      GoodAlternativeMeans(env, row, key, v);
      GoodFieldMeans(env, row, key, v);
      forall i | 0 <= i < |member| && i != j
        ensures Means(env, row, member[i].0, member[i].1)
      {
        VacuousHolds(env, row, member[i].0, member[i].1);
      }
      if KeyEmitted(row, key, v) {
        FieldEmitsKey(env, row, member, j);
      }
    }
  }

  lemma GoodFieldMemberMeans(env: Env, row: Row, member: Entries)
    requires TextsLikePython(env) && !HasTable(member) && GoodFieldMember(member)
    ensures EmittedMember(env, row, member) <==> AllMean(env, row, member)
  {
    assert forall i | 0 <= i < |member| :: !IsTable(member[i]);
    NoTableKeys(env, row, member);
    if |member| == 1 && GoodAlternative(member[0].1) {
      GoodAlternativeMeans(env, row, member[0].0, member[0].1);
    } else {
      assert !Means(env, row, member[0].0, member[0].1);
    }
  }

  lemma TableMemberEmits(env: Env, row: Row, member: Entries)
    requires HasTable(member) && !HasField(member)
    ensures EmittedMember(env, row, member) <==> QueryEmitted(env, row, member)
  {
    if QueryEmitted(env, row, member) {
      TableEmitsAll(env, row, member);
    }
  }

  lemma MemberSameExactly(env: Env, member: Entries)
    requires TextsLikePython(env) && Dictionary(member)
    requires HasTable(member) ==> KnownQuery(member) && WhereSql(env, member).Ok?
    ensures (forall row :: EmittedMember(env, row, member) <==> AllMean(env, row, member)) <==> GoodMember(env, member)
  {
    if !GoodMember(env, member) {
      if !HasTable(member) {
        var row := FieldMemberTells(env, member);
      } else if HasField(member) {
        var row := MixedMemberTells(env, member);
      } else {
        SameMeaningExactly(env, member);
        var row :| QueryEmitted(env, row, member) != AllMean(env, row, member);
        TableMemberEmits(env, row, member);
      }
    } else {
      forall row
        ensures EmittedMember(env, row, member) <==> AllMean(env, row, member)
      {
        GoodMemberMeans(env, row, member);
      }
    }
  }

  lemma GoodMemberMeans(env: Env, row: Row, member: Entries)
    requires TextsLikePython(env) && GoodMember(env, member)
    ensures HasTable(member) ==> KnownQuery(member)
    ensures EmittedMember(env, row, member) <==> AllMean(env, row, member)
  {
    if !HasTable(member) {
      GoodFieldMemberMeans(env, row, member);
    } else if HasField(member) {
      GoodMixedMeans(env, row, member);
    } else {
      GoodFieldsMean(env, row, member);
      TableMemberEmits(env, row, member);
    }
  }

  // ---------------------------------------------------------------- placeholders of an alternative

  lemma OrKeyPlaceholders(env: Env, member: Entries, key: string, v: Json)
    requires OrKeySql(env, member, key, v).Ok?
    ensures var sql := OrKeySql(env, member, key, v).value;
            && Total(sql.where) <= |sql.params|
            && (Total(sql.where) == |sql.params| <==> (TableColumn(key).Some? ==> KnownQuery(member)))
    ensures TableColumn(key).Some? ==> WhereSql(env, member).Ok?
  {
    if TableColumn(key).Some? {
      WhereEmits(env, Silent(), member);
      assert Total([All(WhereSql(env, member).value.where)]) == Total(WhereSql(env, member).value.where);
    } else {
      OrKeyMeans(env, Silent(), member, key, v);
    }
  }

  lemma {:induction false} OrMemberPlaceholders(env: Env, member: Entries, todo: Entries)
    requires OrMemberSql(env, member, todo).Ok?
    ensures var sql := OrMemberSql(env, member, todo).value;
            && Total(sql.where) <= |sql.params|
            && (Total(sql.where) == |sql.params| <==> (HasTable(todo) ==> KnownQuery(member)))
    ensures HasTable(todo) ==> WhereSql(env, member).Ok?
  {
    if todo != [] {
      var (key, v) := todo[0];
      var first, rest := OrKeySql(env, member, key, v).value, OrMemberSql(env, member, todo[1..]).value;
      OrKeyPlaceholders(env, member, key, v);
      OrMemberPlaceholders(env, member, todo[1..]);
      TotalAppend(first.where, rest.where);
      HasTableStep(todo);
    }
  }

  lemma HasTableStep(todo: Entries)
    requires todo != []
    ensures HasTable(todo) <==> IsTable(todo[0]) || HasTable(todo[1..])
  {
    assert forall i | 0 < i < |todo| :: todo[i] == todo[1..][i - 1];
    if i :| 0 <= i < |todo[1..]| && IsTable(todo[1..][i]) {
      assert IsTable(todo[i + 1]);
    }
  }

  /**
   An alternative: placeholders match and its clauses mean all its conditions on every row if and only if it has one
   JSON field with a null, a text or texts, or good conditions on table columns only, or is one of the empty cases.
   */
  lemma MemberMeaningExactly(env: Env, member: Entries)
    requires TextsLikePython(env) && Dictionary(member) && OrMemberSql(env, member, member).Ok?
    ensures var sql := OrMemberSql(env, member, member).value;
            (&& Total(sql.where) == |sql.params|
             && forall row :: EvalAny(row, sql.where, sql.params) <==> AllMean(env, row, member))
            <==> GoodMember(env, member)
  {
    var sql := OrMemberSql(env, member, member).value;
    OrMemberPlaceholders(env, member, member);
    if HasTable(member) ==> KnownQuery(member) {
      forall row
        ensures EvalAny(row, sql.where, sql.params) <==> EmittedMember(env, row, member)
      {
        OrMemberMeans(env, row, member, member);
      }
      MemberSameExactly(env, member);
    } else if GoodMember(env, member) {
      GoodMemberMeans(env, Silent(), member);
    }
  }

  /**
   The whole query: when its fields are good and each alternative is, placeholders match and the clauses mean all field
   conditions and at least one alternative. An alternative that is not good can go unnoticed (WrongAlternativeHidden).
   */
  lemma GoodQueryMeans(env: Env, row: Row, query: Entries, items: seq<Json>)
    requires TextsLikePython(env) && DictSql(env, query).Ok? && Get(query, "$or") == Some(JList(items))
    requires GoodFields(env, Without(query, "$or"))
    requires forall i | 0 <= i < |items| :: items[i].JDict? && GoodMember(env, items[i].entries)
    ensures var sql := DictSql(env, query).value;
            && Total(sql.where) == |sql.params|
            && (EvalAll(row, sql.where, sql.params)
                <==> AllMean(env, row, Without(query, "$or"))
                     && exists i | 0 <= i < |items| :: AllMean(env, row, items[i].entries))
  {
    GoodItemsMean(env, row, items);
    GoodFieldsMean(env, row, Without(query, "$or"));
    EmittedMeaning(env, row, query, items);
  }

  lemma GoodItemsMean(env: Env, row: Row, items: seq<Json>)
    requires TextsLikePython(env)
    requires forall i | 0 <= i < |items| :: items[i].JDict? && GoodMember(env, items[i].entries)
    ensures KnownItems(items)
    ensures (exists i | 0 <= i < |items| :: EmittedMember(env, row, items[i].entries))
            <==> exists i | 0 <= i < |items| :: AllMean(env, row, items[i].entries)
  {
    forall i | 0 <= i < |items|
      ensures KnownMember(items[i].entries)
      ensures EmittedMember(env, row, items[i].entries) <==> AllMean(env, row, items[i].entries)
    {
      GoodMemberMeans(env, row, items[i].entries);
    }
  }

  /** A query whose fields and alternatives are good, with a further alternative. */
  ghost predicate OffersToo(env: Env, query: Entries, items: seq<Json>, member: Entries) {
    && Get(query, "$or") == Some(JList(items)) && DictSql(env, query).Ok? && GoodFields(env, Without(query, "$or"))
    && JDict(member) in items
    && forall i | 0 <= i < |items| ::
        items[i] == JDict(member) || (items[i].JDict? && GoodMember(env, items[i].entries))
  }

  /** Placeholders match, and on every row the clauses mean all field conditions and at least one alternative. */
  ghost predicate EmittedRight(env: Env, query: Entries, items: seq<Json>)
    requires DictSql(env, query).Ok? && forall i | 0 <= i < |items| :: items[i].JDict?
  {
    var sql := DictSql(env, query).value;
    && Total(sql.where) == |sql.params|
    && forall row :: EvalAll(row, sql.where, sql.params)
                     <==> AllMean(env, row, Without(query, "$or"))
                          && exists i | 0 <= i < |items| :: AllMean(env, row, items[i].entries)
  }

  /** Every query that offers an alternative beside good parts is emitted right if and only if that alternative is
      good. */
  lemma GoodAlternativeExactly(env: Env, member: Entries)
    requires TextsLikePython(env) && Dictionary(member) && OrMemberSql(env, member, member).Ok?
    ensures (forall query, items :: OffersToo(env, query, items, member) ==> EmittedRight(env, query, items))
            <==> GoodMember(env, member)
  {
    if GoodMember(env, member) {
      forall query, items | OffersToo(env, query, items, member)
        ensures EmittedRight(env, query, items)
      {
        GoodQueryMeans(env, Silent(), query, items);
        forall row {
          GoodQueryMeans(env, row, query, items);
        }
      }
    } else {
      OnlyAlternative(env, member);
      MemberMeaningExactly(env, member);
    }
  }

  /** {"$or": [member]} */
  lemma OnlyAlternative(env: Env, member: Entries)
    requires OrMemberSql(env, member, member).Ok?
    ensures var query, items := [("$or", JList([JDict(member)]))], [JDict(member)];
            var sql := OrMemberSql(env, member, member).value;
            && OffersToo(env, query, items, member)
            && (EmittedRight(env, query, items) ==>
                  && Total(sql.where) == |sql.params|
                  && forall row :: EvalAny(row, sql.where, sql.params) <==> AllMean(env, row, member))
  {
    var items := [JDict(member)];
    var query := [("$or", JList(items))];
    var sql := OrMemberSql(env, member, member).value;
    assert items[1..] == [] && query[1..] == [] && Without(query, "$or") == []
        && Get(query, "$or") == Some(JList(items));
    PrependTo(sql);
    assert OrSql(env, items) == Ok(sql);
    assert [] + [Any(sql.where)] == [Any(sql.where)] && [] + sql.params == sql.params;
    assert DictSql(env, query) == Ok(Sql([Any(sql.where)], sql.params));
    assert Total([Any(sql.where)]) == Total(sql.where);
    if EmittedRight(env, query, items) {
      forall row
        ensures EvalAny(row, sql.where, sql.params) <==> AllMean(env, row, member)
      {
        EvalOne(row, Any(sql.where), sql.params);
        assert AllMean(env, row, items[0].entries)
            <==> exists i | 0 <= i < |items| :: AllMean(env, row, items[i].entries);
      }
    }
  }

  function TextMember(keys: seq<string>): Entries {
    seq(|keys|, i requires 0 <= i < |keys| => (keys[i], JText("x")))
  }

  /** {"$or": [{"a": "x"}, {"b": "x"}, {"a": "x", "b": "x"}]}: the last alternative is emitted wrongly, unnoticed. */
  lemma WrongAlternativeHidden(env: Env, row: Row)
    requires TextsLikePython(env)
    ensures var a, b, both := TextMember(["a"]), TextMember(["b"]), TextMember(["a", "b"]);
            && !GoodMember(env, both)
            && (EmittedMember(env, row, a) || EmittedMember(env, row, b) || EmittedMember(env, row, both)
                <==> AllMean(env, row, a) || AllMean(env, row, b) || AllMean(env, row, both))
  {
    var a, b, both := TextMember(["a"]), TextMember(["b"]), TextMember(["a", "b"]);
    GoodMemberMeans(env, row, a);
    GoodMemberMeans(env, row, b);
    assert both[0] == a[0] && both[1] == b[0];
    assert EmittedMember(env, row, a) <==> EmittedKey(env, row, a, "a", JText("x"));
    assert EmittedMember(env, row, b) <==> EmittedKey(env, row, b, "b", JText("x"));
    if EmittedMember(env, row, both) {
      var i :| 0 <= i < |both| && EmittedKey(env, row, both, both[i].0, both[i].1);
      assert EmittedKey(env, row, if i == 0 then a else b, both[i].0, both[i].1);
    }
    assert !HasTable(both);
  }

  // ---------------------------------------------------------------- inputs the code gets wrong

  /** {"$or": [{"age": {"$gt": 5}}]}: the operator is dropped, the dictionary itself is compared. */
  lemma OperatorIsDropped(env: Env)
    ensures var greater := JDict([("$gt", JNumber(5))]);
            && DictSql(env, [("$or", JList([JDict([("age", greater)])]))])
               == Ok(Sql([Any([Compare(InJson(NoCast), "=")])], [JText("age"), greater]))
            && !GoodMember(env, [("age", greater)])
  {
    var greater := JDict([("$gt", JNumber(5))]);
    var member := [("age", greater)];
    var emitted := Sql([Compare(InJson(NoCast), "=")], [JText("age"), greater]);
    assert TableColumn("age") == None;
    assert !IsTable(member[0]);
    assert OrKeySql(env, member, "age", greater) == Ok(emitted);
    PrependTo(emitted);
    assert member[1..] == [];
    assert OrMemberSql(env, member, member) == Ok(emitted);
    var items := [JDict(member)];
    assert items[1..] == [];
    assert OrSql(env, items) == Ok(emitted);
    var query := [("$or", JList(items))];
    assert query[1..] == [] && Get(query, "$or") == Some(JList(items)) && Without(query, "$or") == [];
    assert Iterate(JList(items)) == Some(items);
    assert [] + [Any(emitted.where)] == [Any(emitted.where)] && [] + emitted.params == emitted.params;
  }

  /** {"_last_edited": null}: the column is compared with the text of null. */
  lemma NullIsCompared(env: Env)
    ensures DictSql(env, [("_last_edited", JNull)])
         == Ok(Sql([Compare(InTable("last_edited"), "=")], [JText(env.text(JNull))]))
    ensures !GoodFields(env, [("_last_edited", JNull)])
  {
    var query := [("_last_edited", JNull)];
    assert TableColumn("_last_edited") == Some("last_edited");
    assert query[0].0 != "$or" && query[1..] == [] && Get(query, "$or").None?;
    var emitted := Sql([Compare(InTable("last_edited"), "=")], [JText(env.text(JNull))]);
    PrependTo(emitted);
    assert FieldSql(env, query[0].0, query[0].1) == Ok(emitted);
    assert WhereSql(env, query) == Prepend(emitted, WhereSql(env, []));
    assert !GoodField(env, query[0].0, query[0].1);
  }

  /** {"_edited": true}: the field is compared with "True", while "true" is stored. */
  lemma BooleanIsCompared(env: Env)
    requires TextsLikePython(env)
    ensures DictSql(env, [("_edited", JBool(true))])
        == Ok(Sql([Compare(InJson(NoCast), "=")], [JText("_edited"), JText("True")]))
    ensures !GoodFields(env, [("_edited", JBool(true))]) && env.stored(JBool(true)) == "true"
  {
    var query := [("_edited", JBool(true))];
    assert TableColumn("_edited") == None && query[0].0 != "$or" && query[1..] == [] && Get(query, "$or").None?;
    var emitted := Sql([Compare(InJson(NoCast), "=")], [JText("_edited"), JText("True")]);
    PrependTo(emitted);
    assert FieldSql(env, query[0].0, query[0].1) == Ok(emitted);
    assert WhereSql(env, query) == Prepend(emitted, WhereSql(env, []));
    assert !GoodField(env, query[0].0, query[0].1);
  }
}
