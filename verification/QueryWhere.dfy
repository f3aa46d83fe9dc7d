/**
 Mongo-style queries to SQL WHERE clauses with positional parameters
 (onadata/apps/viewer/parsed_instance_tools.py).

 Clauses are a small syntax tree in which every placeholder consumes the next parameter; how a database row
 answers a single comparison is left open.
 */
module QueryWhere {
  import opened Common
  import opened Grouping

  datatype Json =
    | JNull
    | JBool(b: bool)
    | JText(s: string)
    | JNumber(n: int)
    | JFloat(x: real)
    | JList(items: seq<Json>)
    | JDict(entries: seq<(string, Json)>)

  type Entries = seq<(string, Json)>

  datatype Cast = NoCast | AsInt | AsTimestamp | AsDecimal

  /** logger_instance.json->>%s, perhaps cast; or a column of the table. */
  datatype Column = InJson(cast: Cast) | InTable(column: string)

  datatype Clause =
    | Compare(column: Column, op: string)     // column op %s
    | IsNull                                  // logger_instance.json->>%s IS NULL
    | All(parts: seq<Clause>)                 // (a AND b ...)
    | Any(parts: seq<Clause>)                 // (a OR b ...)
    | TextMatch                               // logger_instance.json::text ~* cast(%s as text)

  datatype Sql = Sql(where: seq<Clause>, params: seq<Json>)

  /** InvalidDate is the code's own error, NotADict an AttributeError, BadJson a ValueError, Crash any other one. */
  datatype Fault = InvalidDate | NotADict | BadJson | Crash

  /** The surroundings: str(), the text the database gives for a stored value, date parsing, the form's integer and
      decimal fields. The code does not use the second. */
  datatype Env = Env(text: Json -> string, stored: Json -> string, date: string -> Option<string>,
                     integers: seq<string>, decimals: seq<string>)

  // ---------------------------------------------------------------- tables

  function Operand(op: string): Option<string> {
    if op == "$gt" then Some(">")
    else if op == "$gte" then Some(">=")
    else if op == "$lt" then Some("<")
    else if op == "$lte" then Some("<=")
    else if op == "$i" then Some("~*")
    else None
  }

  function TableColumn(key: string): Option<string> {
    if key == "_submission_time" then Some("date_created")
    else if key == "_date_modified" then Some("date_modified")
    else if key == "_id" then Some("id")
    else if key == "_version" then Some("version")
    else if key == "_last_edited" then Some("last_edited")
    else None
  }

  predicate KnownDate(key: string) {
    key == "_submission_time" || key == "_last_edited" || key == "_date_modified"
  }

  function JsonCast(env: Env, key: string): Cast {
    if key == "_id" || key in env.integers then AsInt
    else if KnownDate(key) then AsTimestamp
    else if key in env.decimals then AsDecimal
    else NoCast
  }

  function ColumnFor(env: Env, key: string): Column {
    match TableColumn(key)
    case Some(column) => InTable(column)
    case None => InJson(JsonCast(env, key))
  }

  /** The value of a comparison: dates are parsed first. */
  function Argument(env: Env, key: string, v: Json): Result<Json, Fault> {
    if !KnownDate(key) then Ok(JText(env.text(v)))
    else match v
      case JText(s) => (match env.date(s) case Some(d) => Ok(JText(d)) case None => Err(InvalidDate))
      case _ => Err(Crash)
  }

  function Args(key: string, v: Json): seq<Json> {
    if TableColumn(key).Some? then [v] else [JText(key), v]
  }

  // ---------------------------------------------------------------- what is emitted

  function Prepend(a: Sql, r: Result<Sql, Fault>): Result<Sql, Fault> {
    match r
    case Ok(b) => Ok(Sql(a.where + b.where, a.params + b.params))
    case Err(_) => r
  }

  lemma PrependNothing(r: Result<Sql, Fault>)
    ensures Prepend(Sql([], []), r) == r
  {
    if r.Ok? {
      assert [] + r.value.where == r.value.where && [] + r.value.params == r.value.params;
    }
  }

  lemma PrependTo(a: Sql)
    ensures Prepend(a, Ok(Sql([], []))) == Ok(a)
  {
    assert a.where + [] == a.where && a.params + [] == a.params;
  }

  lemma PrependTwice(a: Sql, b: Sql, r: Result<Sql, Fault>)
    ensures Prepend(a, Prepend(b, r)) == Prepend(Sql(a.where + b.where, a.params + b.params), r)
  {
    if r.Ok? {
      assert a.where + (b.where + r.value.where) == (a.where + b.where) + r.value.where;
      assert a.params + (b.params + r.value.params) == (a.params + b.params) + r.value.params;
    }
  }

  /** One {operator: value, ...} condition; an unknown operator pushes its parameters without a clause. */
  function OpsSql(env: Env, key: string, ops: Entries): Result<Sql, Fault> {
    if ops == [] then Ok(Sql([], []))
    else
      var v := Argument(env, key, ops[0].1);
      if v.Err? then Err(v.error)
      else
        var clause := match Operand(ops[0].0) case Some(op) => [Compare(ColumnFor(env, key), op)] case None => [];
        Prepend(Sql(clause, Args(key, v.value)), OpsSql(env, key, ops[1..]))
  }

  function PlainSql(env: Env, key: string, v: Json): Sql {
    if TableColumn(key).Some? then Sql([Compare(InTable(TableColumn(key).value), "=")], [JText(env.text(v))])
    else if v.JNull? then Sql([IsNull], [JText(key)])
    else Sql([Compare(InJson(NoCast), "=")], [JText(key), JText(env.text(v))])
  }

  function FieldSql(env: Env, key: string, v: Json): Result<Sql, Fault> {
    if v.JDict? then OpsSql(env, key, v.entries) else Ok(PlainSql(env, key, v))
  }

  function WhereSql(env: Env, query: Entries): Result<Sql, Fault> {
    if query == [] then Ok(Sql([], []))
    else match FieldSql(env, query[0].0, query[0].1)
      case Err(e) => Err(e)
      case Ok(sql) => Prepend(sql, WhereSql(env, query[1..]))
  }

  /** One key of a member of $or, as one or more alternatives. */
  function OrKeySql(env: Env, member: Entries, key: string, v: Json): Result<Sql, Fault> {
    if TableColumn(key).Some? then
      match WhereSql(env, member)
      case Err(e) => Err(e)
      case Ok(sql) => Ok(Sql([All(sql.where)], sql.params))
    else match v
      case JNull => Ok(Sql([IsNull], [JText(key)]))
      case JList(items) => Ok(OrItemsSql(key, items))
      case _ => Ok(Sql([Compare(InJson(NoCast), "=")], [JText(key), v]))
  }

  function OrItemsSql(key: string, items: seq<Json>): Sql {
    if items == [] then Sql([], [])
    else
      var rest := OrItemsSql(key, items[1..]);
      Sql([Compare(InJson(NoCast), "=")] + rest.where, [JText(key), items[0]] + rest.params)
  }

  function OrMemberSql(env: Env, member: Entries, todo: Entries): Result<Sql, Fault> {
    if todo == [] then Ok(Sql([], []))
    else match OrKeySql(env, member, todo[0].0, todo[0].1)
      case Err(e) => Err(e)
      case Ok(sql) => Prepend(sql, OrMemberSql(env, member, todo[1..]))
  }

  function OrSql(env: Env, items: seq<Json>): Result<Sql, Fault> {
    if items == [] then Ok(Sql([], []))
    else if !items[0].JDict? then Err(NotADict)
    else match OrMemberSql(env, items[0].entries, items[0].entries)
      case Err(e) => Err(e)
      case Ok(sql) => Prepend(sql, OrSql(env, items[1..]))
  }

  /** What a for loop over the value of $or goes through; None for a value that cannot be iterated. */
  function Iterate(v: Json): Option<seq<Json>> {
    match v
    case JList(items) => Some(items)
    case JText(s) => Some(seq(|s|, i requires 0 <= i < |s| => JText([s[i]])))
    case JDict(entries) => Some(seq(|entries|, i requires 0 <= i < |entries| => JText(entries[i].0)))
    case _ => None
  }

  function TextSearch(v: Json): Result<Sql, Fault> { Ok(Sql([TextMatch], [v])) }

  /** A query given as a dictionary. */
  function DictSql(env: Env, query: Entries): Result<Sql, Fault> {
    var rest := Without(query, "$or");
    match Get(query, "$or")
    case None => WhereSql(env, query)
    case Some(v) =>
      match Iterate(v)
      case None => Err(Crash)
      case Some(items) =>
        match OrSql(env, items)
        case Err(NotADict) => TextSearch(JDict(rest))
        case Err(e) => Err(e)
        case Ok(alternatives) =>
          match WhereSql(env, rest)
          case Err(e) => Err(e)
          case Ok(sql) => Ok(Sql(sql.where + [Any(alternatives.where)], sql.params + alternatives.params))
  }

  /** A query given as a string; json is what json.loads makes of it, if it can. */
  function StringSql(env: Env, query: string, json: Option<Json>): Result<Sql, Fault> {
    if query == "" then Ok(Sql([], []))
    else match json
      case None => if query[0] == '{' then Err(BadJson) else TextSearch(JText(query))
      case Some(JList(items)) => if items == [] then Err(Crash) else ParsedSql(env, items[0])
      case Some(v) => ParsedSql(env, v)
  }

  function ParsedSql(env: Env, v: Json): Result<Sql, Fault> {
    match v
    case JDict(entries) => DictSql(env, entries)
    case JText(s) => if s != "" && s[0] == '{' then Err(NotADict) else TextSearch(v)
    case _ => TextSearch(v)
  }

  // ---------------------------------------------------------------- the loops

  method ParseOps(env: Env, key: string, ops: Entries) returns (r: Result<Sql, Fault>)
    ensures r == OpsSql(env, key, ops)
  {
    var column := ColumnFor(env, key);
    var where: seq<Clause>, params: seq<Json> := [], [];
    var i := 0;
    PrependNothing(OpsSql(env, key, ops));
    while i < |ops|
      invariant 0 <= i <= |ops|
      invariant Prepend(Sql(where, params), OpsSql(env, key, ops[i..])) == OpsSql(env, key, ops)
    {
      var op, value := ops[i].0, ops[i].1;
      assert ops[i..][1..] == ops[i + 1..];
      ghost var done := Sql(where, params);
      if Operand(op).Some? {
        where := where + [Compare(column, Operand(op).value)];
      }
      var v := Argument(env, key, value);
      if v.Err? {
        return Err(v.error);
      }
      if TableColumn(key).Some? {
        params := params + [v.value];
      } else {
        params := params + [JText(key), v.value];
      }
      ghost var clause := match Operand(op) case Some(o) => [Compare(column, o)] case None => [];
      assert where == done.where + clause && params == done.params + Args(key, v.value);
      PrependTwice(done, Sql(clause, Args(key, v.value)), OpsSql(env, key, ops[i + 1..]));
      i := i + 1;
    }
    PrependTo(Sql(where, params));
    r := Ok(Sql(where, params));
  }

  method ParseWhere(env: Env, query: Entries, orWhere: seq<Clause>, orParams: seq<Json>) returns (r: Result<Sql, Fault>)
    ensures r == (match WhereSql(env, query)
                  case Ok(sql) => Ok(Sql(sql.where + orWhere, sql.params + orParams))
                  case Err(e) => Err(e))
    ensures orWhere == [] && orParams == [] ==> r == WhereSql(env, query)
  {
    var where: seq<Clause>, params: seq<Json> := [], [];
    var i := 0;
    PrependNothing(WhereSql(env, query));
    while i < |query|
      invariant 0 <= i <= |query|
      invariant Prepend(Sql(where, params), WhereSql(env, query[i..])) == WhereSql(env, query)
    {
      var key, value := query[i].0, query[i].1;
      assert query[i..][1..] == query[i + 1..];
      ghost var done := Sql(where, params);
      if value.JDict? {
        var ops := ParseOps(env, key, value.entries);
        if ops.Err? {
          return Err(ops.error);
        }
        where, params := where + ops.value.where, params + ops.value.params;
      } else if TableColumn(key).Some? {
        where := where + [Compare(InTable(TableColumn(key).value), "=")];
        params := params + [JText(env.text(value))];
      } else if value.JNull? {
        where := where + [IsNull];
        params := params + [JText(key)];
      } else {
        where := where + [Compare(InJson(NoCast), "=")];
        params := params + [JText(key), JText(env.text(value))];
      }
      ghost var step := FieldSql(env, key, value).value;
      assert where == done.where + step.where && params == done.params + step.params;
      PrependTwice(done, step, WhereSql(env, query[i + 1..]));
      i := i + 1;
    }
    PrependTo(Sql(where, params));
    assert orWhere == [] ==> where + orWhere == where;
    assert orParams == [] ==> params + orParams == params;
    r := Ok(Sql(where + orWhere, params + orParams));
  }

  /** The loop over a list of values. */
  method ParseItems(key: string, items: seq<Json>) returns (sql: Sql)
    ensures sql == OrItemsSql(key, items)
  {
    var where: seq<Clause>, params: seq<Json> := [], [];
    PrependNothing(Ok(OrItemsSql(key, items)));
    assert items[0..] == items;
    var j := 0;
    while j < |items|
      invariant 0 <= j <= |items|
      invariant Prepend(Sql(where, params), Ok(OrItemsSql(key, items[j..]))) == Ok(OrItemsSql(key, items))
    {
      assert items[j..][1..] == items[j + 1..];
      var first := Sql([Compare(InJson(NoCast), "=")], [JText(key), items[j]]);
      PrependTwice(Sql(where, params), first, Ok(OrItemsSql(key, items[j + 1..])));
      where, params := where + first.where, params + first.params;
      j := j + 1;
    }
    PrependTo(Sql(where, params));
    sql := Sql(where, params);
  }

  method ParseMember(env: Env, member: Entries) returns (r: Result<Sql, Fault>)
    ensures r == OrMemberSql(env, member, member)
  {
    var orWhere: seq<Clause>, orParams: seq<Json> := [], [];
    var i := 0;
    PrependNothing(OrMemberSql(env, member, member));
    assert member[0..] == member;
    while i < |member|
      invariant 0 <= i <= |member|
      invariant Prepend(Sql(orWhere, orParams), OrMemberSql(env, member, member[i..]))
          == OrMemberSql(env, member, member)
    {
      var key, value := member[i].0, member[i].1;
      assert member[i..][1..] == member[i + 1..];
      ghost var done := Sql(orWhere, orParams);
      if TableColumn(key).Some? {
        var both := ParseWhere(env, member, [], []);
        if both.Err? {
          return Err(both.error);
        }
        orWhere := orWhere + [All(both.value.where)];
        orParams := orParams + both.value.params;
      } else if value.JNull? {
        orWhere := orWhere + [IsNull];
        orParams := orParams + [JText(key)];
      } else if value.JList? {
        var each := ParseItems(key, value.items);
        orWhere, orParams := orWhere + each.where, orParams + each.params;
      } else {
        orWhere := orWhere + [Compare(InJson(NoCast), "=")];
        orParams := orParams + [JText(key), value];
      }
      ghost var step := OrKeySql(env, member, key, value).value;
      assert orWhere == done.where + step.where && orParams == done.params + step.params;
      PrependTwice(done, step, OrMemberSql(env, member, member[i + 1..]));
      i := i + 1;
    }
    PrependTo(Sql(orWhere, orParams));
    r := Ok(Sql(orWhere, orParams));
  }

  method ParseOr(env: Env, items: seq<Json>) returns (r: Result<Sql, Fault>)
    ensures r == OrSql(env, items)
  {
    var orWhere: seq<Clause>, orParams: seq<Json> := [], [];
    var i := 0;
    PrependNothing(OrSql(env, items));
    assert items[0..] == items;
    while i < |items|
      invariant 0 <= i <= |items|
      invariant Prepend(Sql(orWhere, orParams), OrSql(env, items[i..])) == OrSql(env, items)
    {
      assert items[i..][1..] == items[i + 1..];
      if !items[i].JDict? {
        return Err(NotADict);
      }
      var member := ParseMember(env, items[i].entries);
      if member.Err? {
        return member;
      }
      PrependTwice(Sql(orWhere, orParams), member.value, OrSql(env, items[i + 1..]));
      orWhere, orParams := orWhere + member.value.where, orParams + member.value.params;
      i := i + 1;
    }
    PrependTo(Sql(orWhere, orParams));
    r := Ok(Sql(orWhere, orParams));
  }

  /** A dictionary object that a caller passes in. */
  class QueryDict {
    var entries: Entries

    constructor (entries: Entries)
      ensures this.entries == entries
    {
      this.entries := entries;
    }

    /** The caller's dictionary loses its "$or". */
    method GetWhereClause(env: Env) returns (r: Result<Sql, Fault>)
      modifies this
      ensures r == DictSql(env, old(entries))
      ensures entries == if Get(old(entries), "$or").Some? then Without(old(entries), "$or") else old(entries)
    {
      var alternatives := Get(entries, "$or");
      if alternatives.None? {
        r := ParseWhere(env, entries, [], []);
        return;
      }
      entries := Without(entries, "$or");
      var items := Iterate(alternatives.value);
      if items.None? {
        return Err(Crash);
      }
      var parsed := ParseOr(env, items.value);
      if parsed.Err? {
        if parsed.error == NotADict {
          return TextSearch(JDict(entries));
        }
        return parsed;
      }
      r := ParseWhere(env, entries, [Any(parsed.value.where)], parsed.value.params);
    }
  }

  method GetWhereClauseOfString(env: Env, query: string, json: Option<Json>) returns (r: Result<Sql, Fault>)
    ensures r == StringSql(env, query, json)
  {
    if query == "" {
      return Ok(Sql([], []));
    }
    if json.None? {
      return if query[0] == '{' then Err(BadJson) else TextSearch(JText(query));
    }
    var v := json.value;
    if v.JList? {
      if v.items == [] {
        return Err(Crash);
      }
      v := v.items[0];
    }
    if v.JDict? {
      var q := new QueryDict(v.entries);
      r := q.GetWhereClause(env);
    } else if v.JText? && v.s != "" && v.s[0] == '{' {
      r := Err(NotADict);
    } else {
      r := TextSearch(v);
    }
  }

  // ---------------------------------------------------------------- duplicate keys of a JSON object

  function Merged(bs: seq<(string, seq<Json>)>): Entries {
    if bs == [] then []
    else [(bs[0].0, if |bs[0].1| == 1 then bs[0].1[0] else JList(bs[0].1))] + Merged(bs[1..])
  }

  /** A key that occurs once keeps its value; one that occurs more often gets the list of its values, in order. */
  method MergeDuplicateKeys(pairs: Entries) returns (merged: Entries)
    ensures merged == Merged(Buckets(pairs))
  {
    var ret: seq<(string, seq<Json>)> := [];
    var i := 0;
    while i < |pairs|
      invariant 0 <= i <= |pairs|
      invariant ret == Buckets(pairs[..i])
    {
      assert pairs[..i + 1] == pairs[..i] + [pairs[i]];
      BucketsSnoc(pairs[..i], pairs[i]);
      var field, value := pairs[i].0, pairs[i].1;
      var current := Get(ret, field);
      InsertIsPut(ret, field, value);
      BucketKeys(pairs[..i]);
      ret := Put(ret, field, (if current.None? then [] else current.value) + [value]);
      i := i + 1;
    }
    assert pairs[..i] == pairs;
    merged := [];
    i := 0;
    while i < |ret|
      invariant 0 <= i <= |ret|
      invariant merged + Merged(ret[i..]) == Merged(ret)
    {
      assert ret[i..][1..] == ret[i + 1..];
      var key, values := ret[i].0, ret[i].1;
      merged := merged + [(key, if |values| == 1 then values[0] else JList(values))];
      i := i + 1;
    }
  }

  lemma {:induction false} InsertIsPut(bs: seq<(string, seq<Json>)>, key: string, v: Json)
    ensures Insert(bs, key, v) == Put(bs, key, (if Get(bs, key).None? then [] else Get(bs, key).value) + [v])
  {
    if bs == [] {
      assert [] + [v] == [v];
    } else if bs[0].0 != key {
      InsertIsPut(bs[1..], key, v);
    }
  }

  /** What a query key maps to after merging: nothing, its only value, or the list of all its values. */
  lemma {:induction false} MergedGet(bs: seq<(string, seq<Json>)>, key: string)
    ensures Get(Merged(bs), key) == (match Get(bs, key)
                                     case None => None
                                     case Some(vs) => Some(if |vs| == 1 then vs[0] else JList(vs)))
  {
    if bs != [] {
      MergedGet(bs[1..], key);
      assert Merged(bs)[1..] == Merged(bs[1..]);
    }
  }

  lemma MergeKeepsEveryValue(pairs: Entries, key: string)
    ensures var vs := Select(pairs, key);
      Get(Merged(Buckets(pairs)), key) ==
        if vs == [] then None else Some(if |vs| == 1 then vs[0] else JList(vs))
  {
    BucketOf(pairs, key);
    MergedGet(Buckets(pairs), key);
  }
}
