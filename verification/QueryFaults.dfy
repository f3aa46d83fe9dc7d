/**
 Which queries are accepted, what is wrong with the others, and what a query given as a string finds
 (onadata/apps/viewer/parsed_instance_tools.py).
 */
module QueryFaults {
  import opened Common
  import opened Grouping
  import opened QueryWhere
  import opened QueryMeaning
  import opened QueryExact

  // ---------------------------------------------------------------- dates that cannot be read

  /** A date is compared with something else than a text, or with a text that is no date. */
  predicate Unreadable(env: Env, key: string, v: Json, fault: Fault) {
    && IsDate(PlaceOf(key))
    && match v
       case JText(s) => env.date(s) == None && fault == InvalidDate
       case _ => fault == Crash
  }

  ghost predicate Wrong(env: Env, query: Entries, i: nat, j: nat, fault: Fault) {
    && i < |query| && query[i].1.JDict? && j < |query[i].1.entries|
    && Unreadable(env, query[i].0, query[i].1.entries[j].1, fault)
  }

  /** The first comparison that is wrong. */
  ghost predicate FirstWrong(env: Env, query: Entries, i: nat, j: nat, fault: Fault) {
    && Wrong(env, query, i, j, fault)
    && forall k: nat, l: nat, other :: Wrong(env, query, k, l, other) ==> i < k || (i == k && j <= l)
  }

  lemma ArgumentIs(env: Env, key: string, v: Json)
    ensures forall fault :: Argument(env, key, v) == Err(fault) <==> Unreadable(env, key, v, fault)
  {
    ColumnsArePlaces(key);
  }

  lemma {:induction false} OpsFault(env: Env, key: string, ops: Entries) returns (j: nat)
    ensures OpsSql(env, key, ops).Ok? ==> forall l, fault | 0 <= l < |ops| :: !Unreadable(env, key, ops[l].1, fault)
    ensures OpsSql(env, key, ops).Err? ==>
              && j < |ops| && Unreadable(env, key, ops[j].1, OpsSql(env, key, ops).error)
              && forall l, fault | 0 <= l < j :: !Unreadable(env, key, ops[l].1, fault)
    decreases |ops|
  {
    j := 0;
    if ops != [] {
      ArgumentIs(env, key, ops[0].1);
      if Argument(env, key, ops[0].1).Ok? {
        var later := OpsFault(env, key, ops[1..]);
        assert forall l | 0 < l < |ops| :: ops[l] == ops[1..][l - 1];
        j := later + 1;
      }
    }
  }

  ghost predicate Readable(env: Env, e: (string, Json)) {
    e.1.JDict? ==> forall l, fault | 0 <= l < |e.1.entries| :: !Unreadable(env, e.0, e.1.entries[l].1, fault)
  }

  lemma {:induction false} WhereFault(env: Env, query: Entries) returns (i: nat, j: nat)
    ensures WhereSql(env, query).Ok? ==> forall k | 0 <= k < |query| :: Readable(env, query[k])
    ensures WhereSql(env, query).Err? ==>
              && i < |query| && query[i].1.JDict? && j < |query[i].1.entries|
              && Unreadable(env, query[i].0, query[i].1.entries[j].1, WhereSql(env, query).error)
              && (forall l, fault | 0 <= l < j :: !Unreadable(env, query[i].0, query[i].1.entries[l].1, fault))
              && forall k | 0 <= k < i :: Readable(env, query[k])
    decreases |query|
  {
    i, j := 0, 0;
    if query != [] {
      var (key, v) := query[0];
      if v.JDict? {
        j := OpsFault(env, key, v.entries);
      }
      if FieldSql(env, key, v).Ok? {
        i, j := WhereFault(env, query[1..]);
        assert forall k | 0 < k < |query| :: query[k] == query[1..][k - 1];
        i := i + 1;
      }
    }
  }

  /** A query without "$or" is refused if and only if a date is compared with what is none; the first such comparison
      decides how. */
  lemma WhereFaultsExactly(env: Env, query: Entries)
    ensures WhereSql(env, query).Ok? <==> forall i: nat, j: nat, fault :: !Wrong(env, query, i, j, fault)
    ensures forall fault :: WhereSql(env, query) == Err(fault) ==> exists i, j :: FirstWrong(env, query, i, j, fault)
  {
    var i, j := WhereFault(env, query);
    if WhereSql(env, query).Ok? {
      forall k: nat, l: nat, fault
        ensures !Wrong(env, query, k, l, fault)
      {
        if k < |query| {
          assert Readable(env, query[k]);
        }
      }
    } else {
      var fault := WhereSql(env, query).error;
      forall k: nat, l: nat, other | k < i
        ensures !Wrong(env, query, k, l, other)
      {
        assert Readable(env, query[k]);
      }
      assert Wrong(env, query, i, j, fault);
      assert FirstWrong(env, query, i, j, fault);
    }
  }

  // ---------------------------------------------------------------- "$or"

  /** The query is accepted, and finds a row or not. */
  ghost predicate Answers(r: Result<Sql, Fault>, row: Row, found: bool) {
    r.Ok? && Total(r.value.where) == |r.value.params| && (EvalAll(row, r.value.where, r.value.params) <==> found)
  }

  lemma SearchAnswers(row: Row, v: Json)
    ensures Answers(TextSearch(v), row, row.matches(v))
  {
    assert [TextMatch][1..] == [] && [v][..1] == [v];
  }

  /** An alternative is no dictionary; or it has a key that names a column of the table, and as a query is refused. */
  ghost predicate BadAlternative(env: Env, alternative: Json, fault: Fault) {
    if alternative.JDict? then
      && WhereSql(env, alternative.entries) == Err(fault)
      && exists k | 0 <= k < |alternative.entries| :: !PlaceOf(alternative.entries[k].0).Answer?
    else fault == NotADict
  }

  lemma {:induction false} MemberFault(env: Env, member: Entries, todo: Entries)
    ensures OrMemberSql(env, member, todo).Ok? <==>
              WhereSql(env, member).Ok? || forall k | 0 <= k < |todo| :: PlaceOf(todo[k].0).Answer?
    ensures OrMemberSql(env, member, todo).Err? ==>
              WhereSql(env, member).Err? && OrMemberSql(env, member, todo).error == WhereSql(env, member).error
    decreases |todo|
  {
    if todo != [] {
      ColumnsArePlaces(todo[0].0);
      MemberFault(env, member, todo[1..]);
      assert forall k | 0 < k < |todo| :: todo[k] == todo[1..][k - 1];
    }
  }

  lemma AlternativeFault(env: Env, alternative: Json)
    requires alternative.JDict?
    ensures forall fault :: OrMemberSql(env, alternative.entries, alternative.entries) == Err(fault)
                            <==> BadAlternative(env, alternative, fault)
  {
    MemberFault(env, alternative.entries, alternative.entries);
  }

  ghost predicate Bad(env: Env, items: seq<Json>, i: nat) {
    i < |items| && exists fault :: BadAlternative(env, items[i], fault)
  }

  /** The first alternative that is bad decides how the alternatives are refused. */
  lemma {:induction false} OrFault(env: Env, items: seq<Json>) returns (i: nat)
    ensures OrSql(env, items).Ok? ==> forall k: nat :: !Bad(env, items, k)
    ensures OrSql(env, items).Err? ==>
              && i < |items| && BadAlternative(env, items[i], OrSql(env, items).error)
              && forall k: nat | k < i :: !Bad(env, items, k)
    decreases |items|
  {
    i := 0;
    if items != [] {
      if items[0].JDict? {
        AlternativeFault(env, items[0]);
      } else {
        assert BadAlternative(env, items[0], NotADict);
      }
      if items[0].JDict? && OrMemberSql(env, items[0].entries, items[0].entries).Ok? {
        var later := OrFault(env, items[1..]);
        forall k: nat | 0 < k < |items|
          ensures Bad(env, items, k) <==> Bad(env, items[1..], k - 1)
        {
          assert items[k] == items[1..][k - 1];
        }
        i := later + 1;
      }
    }
  }

  ghost predicate FirstBad(env: Env, items: seq<Json>, i: nat) {
    Bad(env, items, i) && forall k: nat | k < i :: !Bad(env, items, k)
  }

  /**
   A query with "$or": alternatives that are no list (or text, or dictionary) fail; if the first bad alternative is no
   dictionary, the query's other entries are searched for as text; if it is a dictionary, its fault is the query's; with
   no bad one, the other entries decide.
   */
  lemma OrFaultsExactly(env: Env, row: Row, query: Entries, v: Json)
    requires Get(query, "$or") == Some(v)
    ensures v.JNull? || v.JBool? || v.JNumber? || v.JFloat? <==> Iterate(v) == None
    ensures var r, rest := DictSql(env, query), Without(query, "$or");
            match Iterate(v)
            case None => r == Err(Crash)
            case Some(items) =>
              && ((forall i: nat :: !Bad(env, items, i)) ==>
                    (r.Ok? <==> WhereSql(env, rest).Ok?) && (r.Err? ==> r == WhereSql(env, rest)))
              && forall i: nat | FirstBad(env, items, i) ::
                  if items[i].JDict? then r.Err? && BadAlternative(env, items[i], r.error)
                  else Answers(r, row, row.matches(JDict(rest)))
  {
    if items :| Iterate(v) == Some(items) {
      var i := OrFault(env, items);
      SearchAnswers(row, JDict(Without(query, "$or")));
      forall j: nat | FirstBad(env, items, j)
        ensures OrSql(env, items).Err? && i == j
      {
        if OrSql(env, items).Err? {
          assert Bad(env, items, i);
        }
      }
      if OrSql(env, items).Err? {
        NotADictIsNone(env, items[i]);
        assert Bad(env, items, i);
      }
    }
  }

  lemma NotADictIsNone(env: Env, alternative: Json)
    ensures BadAlternative(env, alternative, NotADict) <==> !alternative.JDict?
  {
    if alternative.JDict? {
      WhereFaultsExactly(env, alternative.entries);
    }
  }

  // ---------------------------------------------------------------- queries given as strings

  /** What a string stands for: the first value of a list, or else the value itself; the text when it is no JSON. */
  function StandsFor(query: string, json: Option<Json>): Option<Json> {
    match json
    case None => Some(JText(query))
    case Some(JList(items)) => if items == [] then None else Some(items[0])
    case Some(v) => Some(v)
  }

  /**
   An empty string finds everything. A string that is no JSON is searched for as text, unless it begins with a brace;
   a dictionary is taken as such; an empty list fails, a list stands for its first value,
       and any other value is searched
   for as text, again unless it is a text that begins with a brace.
   */
  lemma StringAnswers(env: Env, row: Row, query: string, json: Option<Json>)
    ensures var r, v := StringSql(env, query, json), StandsFor(query, json);
            if query == "" then Answers(r, row, true)
            else match v
              case None => r == Err(Crash)
              case Some(JDict(entries)) => r == DictSql(env, entries)
              case Some(JText(s)) =>
                if "{" <= s then r == Err(if json == None then BadJson else NotADict)
                else Answers(r, row, row.matches(JText(s)))
              case Some(other) => Answers(r, row, row.matches(other))
  {
    if v :| StandsFor(query, json) == Some(v) {
      SearchAnswers(row, v);
    }
  }
}
