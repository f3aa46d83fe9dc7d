/** Row identifiers of FLOIP results (pairing and the row generators in onadata/libs/renderers/renderers.py). */
module FloipRows {
  import opened Common
  import Grouping
  import opened Positions

  // ---------------------------------------------------------------- the pairing function

  /** The numbers on the diagonals before diagonal s. */
  function Triangle(s: nat): nat {
    s * (s + 1) / 2
  }

  function Pairing(a: nat, b: nat): nat {
    Triangle(a + b) + b
  }

  lemma {:induction false} TriangleGrows(s: nat, t: nat)
    requires s < t
    ensures Triangle(s) + s < Triangle(t)
    decreases t - s
  {
    if s < t - 1 {
      TriangleGrows(s, t - 1);
    }
  }

  /** The diagonal of a number. */
  function Diagonal(n: nat): (s: nat)
    ensures Triangle(s) <= n <= Triangle(s) + s
  {
    if n == 0 then 0
    else
      var s := Diagonal(n - 1);
      if n <= Triangle(s) + s then s else s + 1
  }

  function Unpair(n: nat): (nat, nat) {
    var s := Diagonal(n);
    var b := n - Triangle(s);
    (s - b, b)
  }

  /** Pairing and unpairing undo each other: pairing is a bijection. */
  lemma PairingIsBijective(a: nat, b: nat, n: nat)
    ensures Unpair(Pairing(a, b)) == (a, b)
    ensures Pairing(Unpair(n).0, Unpair(n).1) == n
  {
    var s, t := a + b, Diagonal(Pairing(a, b));
    if s < t {
      TriangleGrows(s, t);
    } else if t < s {
      TriangleGrows(t, s);
    }
  }

  // ---------------------------------------------------------------- in floating point

  const EXACT := 0x20_0000_0000_0000

  /** The spacing of the double precision numbers around a natural number. */
  function Spacing(n: nat): (u: nat)
    ensures u > 0
  {
    if n < EXACT then 1 else 2 * Spacing(n / 2)
  }

  /** Round half to even, as IEEE 754 does for values below the overflow range. */
  function Rounded(n: nat): nat {
    var u := Spacing(n);
    var q, r := n / u, n % u;
    if 2 * r < u || (2 * r == u && q % 2 == 0) then q * u else (q + 1) * u
  }

  /** ((a + b) * (a + b + 1)) / 2 + b in Python: a true division, then an addition of floats. */
  function FloatPairing(a: nat, b: nat): nat {
    Rounded(Rounded(Triangle(a + b)) + Rounded(b))
  }

  lemma FloatPairingIsExact(a: nat, b: nat)
    requires Pairing(a, b) <= EXACT
    ensures FloatPairing(a, b) == Pairing(a, b)
  {
    RoundedIsExact(Triangle(a + b));
    RoundedIsExact(b);
    RoundedIsExact(Pairing(a, b));
  }

  lemma RoundedIsExact(n: nat)
    requires n <= EXACT
    ensures Rounded(n) == n
  {}

  /** Beyond 2^53 two records can share a row identifier: submissions 134217726 and 134217725, keys 3 and 4. */
  lemma FloatPairingCollides()
    ensures FloatPairing(134217726, 3) == FloatPairing(134217725, 4)
    ensures Pairing(134217726, 3) != Pairing(134217725, 4)
  {
    var t := Triangle(134217729);
    assert t == 9007199456067585;
    assert Spacing(t / 2) == 1 && Spacing(t) == 2;
    assert Rounded(t) == 9007199456067584;
    var m := 9007199456067584;
    assert Spacing((m + 3) / 2) == 1 && Spacing(m + 3) == 2;
    assert Spacing((m + 4) / 2) == 1 && Spacing(m + 4) == 2;
    RoundedIsExact(3);
    RoundedIsExact(4);
  }

  // ---------------------------------------------------------------- the rows of records

  /** A submission: id is the value of its "_id" entry. */
  datatype Record = Record(id: nat, entries: seq<(string, string)>)

  datatype SessionId = Named(text: string) | Number(id: nat)

  datatype ResultRow = ResultRow(rowId: nat, contact: Option<string>, session: SessionId, question: string,
      response: string)

  const IGNORED: seq<string> := ["formhub/uuid", "meta/contactID", "meta/deprecatedID", "meta/instanceID",
      "meta/sessionID"]

  predicate IsQuestion(key: string) {
    !(|key| > 0 && key[0] == '_') && key !in IGNORED
  }

  /** data.get("meta/contactID", data.get("_submitted_by")) */
  function Contact(r: Record): Option<string> {
    var contact := Grouping.Get(r.entries, "meta/contactID");
    if contact.Some? then contact else Grouping.Get(r.entries, "_submitted_by")
  }

  /** The session, else the uuid, else the number of the submission; an empty text does not count. */
  function SessionOf(r: Record): SessionId {
    var session, uuid := Grouping.Get(r.entries, "meta/sessionID"), Grouping.Get(r.entries, "_uuid");
    if session.Some? && session.value != "" then Named(session.value)
    else if uuid.Some? && uuid.value != "" then Named(uuid.value)
    else Number(r.id)
  }

  /** The row of the entry at a position, counted from 1. */
  function RowAt(r: Record, i: nat): ResultRow
    requires 1 <= i <= |r.entries|
  {
    var (key, response) := r.entries[i - 1];
    ResultRow(FloatPairing(r.id, i), Contact(r), SessionOf(r), key, response)
  }

  /** Rows of the first n entries. */
  function RowsOf(r: Record, n: nat): seq<ResultRow>
    requires n <= |r.entries|
  {
    if n == 0 then []
    else RowsOf(r, n - 1) + if IsQuestion(r.entries[n - 1].0) then [RowAt(r, n)] else []
  }

  function AllRows(records: seq<Record>): seq<ResultRow> {
    if records == [] then []
    else
      var last := records[|records| - 1];
      AllRows(records[..|records| - 1]) + RowsOf(last, |last.entries|)
  }

  method FloipRowsList(data: Record) returns (rows: seq<ResultRow>)
    ensures rows == RowsOf(data, |data.entries|)
  {
    rows := [];
    for i := 1 to |data.entries| + 1
      invariant rows == RowsOf(data, i - 1)
    {
      var (key, response) := data.entries[i - 1];
      if IsQuestion(key) {
        rows := rows + [ResultRow(FloatPairing(data.id, i), Contact(data), SessionOf(data), key, response)];
      }
    }
  }

  method FloipList(data: seq<Record>) returns (rows: seq<ResultRow>)
    ensures rows == AllRows(data)
  {
    rows := [];
    for i := 0 to |data|
      invariant rows == AllRows(data[..i])
    {
      var more := FloipRowsList(data[i]);
      rows := rows + more;
      assert data[..i + 1][..i] == data[..i];
    }
    assert data[..|data|] == data;
  }

  ghost predicate IdsInRange(r: Record) {
    forall i :: 1 <= i <= |r.entries| ==> Pairing(r.id, i) <= EXACT
  }

  ghost predicate DistinctRowIds(rows: seq<ResultRow>) {
    forall i, j :: 0 <= i < j < |rows| ==> rows[i].rowId != rows[j].rowId
  }

  lemma DifferentIds(a: nat, i: nat, b: nat, j: nat)
    requires a != b || i != j
    requires Pairing(a, i) <= EXACT && Pairing(b, j) <= EXACT
    ensures FloatPairing(a, i) != FloatPairing(b, j)
  {
    FloatPairingIsExact(a, i);
    FloatPairingIsExact(b, j);
    PairingIsBijective(a, i, 0);
    PairingIsBijective(b, j, 0);
  }

  /** Two pairs within a bound that get one identifier. */
  ghost predicate Collide(bound: nat, a: nat, i: nat, b: nat, j: nat) {
    && (a, i) != (b, j) && Pairing(a, i) <= bound && Pairing(b, j) <= bound
    && FloatPairing(a, i) == FloatPairing(b, j)
  }

  /** The identifiers of all pairs up to a bound differ if and only if the bound is at most 2^53. */
  lemma FloatPairingDistinctExactly(bound: nat)
    ensures (forall a: nat, i: nat, b: nat, j: nat :: !Collide(bound, a, i, b, j)) <==> bound <= EXACT
  {
    if bound <= EXACT {
      forall a: nat, i: nat, b: nat, j: nat
        ensures !Collide(bound, a, i, b, j)
      {
        if (a, i) != (b, j) && Pairing(a, i) <= bound && Pairing(b, j) <= bound {
          DifferentIds(a, i, b, j);
        }
      }
    } else {
      FirstCollision();
      assert Collide(bound, 67108863, 67108864, 67108862, 67108865);
    }
  }

  /** The pairs numbered 2^53 and 2^53 + 1. */
  lemma FirstCollision()
    ensures Pairing(67108863, 67108864) == EXACT && Pairing(67108862, 67108865) == EXACT + 1
    ensures FloatPairing(67108863, 67108864) == FloatPairing(67108862, 67108865)
  {
    assert Triangle(134217727) == EXACT - 67108864;
    assert Spacing((EXACT + 1) / 2) == 1 && Spacing(EXACT + 1) == 2;
    assert Rounded(EXACT + 1) == EXACT;
    RoundedIsExact(EXACT);
    RoundedIsExact(EXACT - 67108864);
    RoundedIsExact(67108864);
    RoundedIsExact(67108865);
  }

  /** Every row of a record has the identifier of one of its entries. */
  ghost predicate ComesFrom(row: ResultRow, r: Record, n: nat) {
    exists i :: 1 <= i <= n && row.rowId == FloatPairing(r.id, i)
  }

  lemma {:induction false} RowsComeFrom(r: Record, n: nat, k: nat)
    requires n <= |r.entries| && k < |RowsOf(r, n)|
    ensures ComesFrom(RowsOf(r, n)[k], r, n)
    decreases n
  {
    if k < |RowsOf(r, n - 1)| {
      RowsComeFrom(r, n - 1, k);
      var i :| 1 <= i <= n - 1 && RowsOf(r, n - 1)[k].rowId == FloatPairing(r.id, i);
      assert RowsOf(r, n)[k].rowId == FloatPairing(r.id, i);
    } else {
      assert RowsOf(r, n)[k].rowId == FloatPairing(r.id, n);
    }
  }

  lemma {:induction false} RecordRowsDistinct(r: Record, n: nat)
    requires n <= |r.entries| && IdsInRange(r)
    ensures DistinctRowIds(RowsOf(r, n))
    decreases n
  {
    if n > 0 {
      RecordRowsDistinct(r, n - 1);
      var before := RowsOf(r, n - 1);
      forall k | 0 <= k < |before|
        ensures before[k].rowId != FloatPairing(r.id, n)
      {
        RowsComeFrom(r, n - 1, k);
        var i :| 1 <= i <= n - 1 && before[k].rowId == FloatPairing(r.id, i);
        DifferentIds(r.id, i, r.id, n);
      }
    }
  }

  lemma RowsOfDifferentRecords(r: Record, s: Record, j: nat, k: nat)
    requires r.id != s.id && IdsInRange(r) && IdsInRange(s)
    requires j < |RowsOf(r, |r.entries|)| && k < |RowsOf(s, |s.entries|)|
    ensures RowsOf(r, |r.entries|)[j].rowId != RowsOf(s, |s.entries|)[k].rowId
  {
    RowsComeFrom(r, |r.entries|, j);
    RowsComeFrom(s, |s.entries|, k);
    var i :| 1 <= i <= |r.entries| && RowsOf(r, |r.entries|)[j].rowId == FloatPairing(r.id, i);
    var h :| 1 <= h <= |s.entries| && RowsOf(s, |s.entries|)[k].rowId == FloatPairing(s.id, h);
    DifferentIds(r.id, i, s.id, h);
  }

  lemma {:induction false} RowsAreOfRecords(records: seq<Record>, j: nat)
    requires j < |AllRows(records)|
    ensures exists m, k :: 0 <= m < |records| && 0 <= k < |RowsOf(records[m], |records[m].entries|)|
                           && AllRows(records)[j] == RowsOf(records[m], |records[m].entries|)[k]
    decreases |records|
  {
    var n := |records| - 1;
    var before, last := AllRows(records[..n]), records[n];
    if j < |before| {
      RowsAreOfRecords(records[..n], j);
      var m, k :| 0 <= m < n && 0 <= k < |RowsOf(records[..n][m], |records[..n][m].entries|)|
                  && before[j] == RowsOf(records[..n][m], |records[..n][m].entries|)[k];
      assert records[..n][m] == records[m];
    } else {
      assert AllRows(records)[j] == RowsOf(last, |last.entries|)[j - |before|];
    }
  }

  /** Records with different ids give rows with different identifiers, as long as these are exact floats. */
  lemma {:induction false} RowIdsDistinct(records: seq<Record>)
    requires forall m, n :: 0 <= m < n < |records| ==> records[m].id != records[n].id
    requires forall m :: 0 <= m < |records| ==> IdsInRange(records[m])
    ensures DistinctRowIds(AllRows(records))
    decreases |records|
  {
    if records != [] {
      var n := |records| - 1;
      var before, last := AllRows(records[..n]), records[n];
      RowIdsDistinct(records[..n]);
      RecordRowsDistinct(last, |last.entries|);
      forall j, k | 0 <= j < |before| && 0 <= k < |RowsOf(last, |last.entries|)|
        ensures before[j].rowId != RowsOf(last, |last.entries|)[k].rowId
      {
        RowsAreOfRecords(records[..n], j);
        var m, h :| 0 <= m < n && 0 <= h < |RowsOf(records[..n][m], |records[..n][m].entries|)|
                    && before[j] == RowsOf(records[..n][m], |records[..n][m].entries|)[h];
        RowsOfDifferentRecords(records[m], last, h, k);
      }
    }
  }

  // ---------------------------------------------------------------- the rows, entry by entry

  /** The first value under a key, or none. */
  ghost predicate FirstUnder(entries: seq<(string, string)>, key: string, v: Option<string>) {
    match v
    case Some(text) => exists k | 0 <= k < |entries| ::
      entries[k] == (key, text) && forall l | 0 <= l < k :: entries[l].0 != key
    case None => forall k | 0 <= k < |entries| :: entries[k].0 != key
  }

  lemma {:induction false} GetIsFirst(entries: seq<(string, string)>, key: string)
    ensures FirstUnder(entries, key, Grouping.Get(entries, key))
  {
    if entries != [] {
      if entries[0].0 == key {
        assert entries[0] == (key, entries[0].1);
      } else {
        var rest := entries[1..];
        GetIsFirst(rest, key);
        assert forall k | 0 < k < |entries| :: entries[k] == rest[k - 1];
        if text :| Grouping.Get(rest, key) == Some(text) {
          var k :| 0 <= k < |rest| && rest[k] == (key, text) && forall l | 0 <= l < k :: rest[l].0 != key;
          assert entries[k + 1] == (key, text);
        }
      }
    }
  }

  /** A question: a key without a leading underscore that is none of the form's own fields. */
  predicate Asks(key: string) {
    && !("_" <= key)
    && key !in {"formhub/uuid", "meta/contactID", "meta/deprecatedID", "meta/instanceID", "meta/sessionID"}
  }

  ghost predicate HasContact(r: Record, contact: Option<string>) {
    exists own, submitter ::
      && FirstUnder(r.entries, "meta/contactID", own) && FirstUnder(r.entries, "_submitted_by", submitter)
      && contact == if own.Some? then own else submitter
  }

  ghost predicate HasSession(r: Record, session: SessionId) {
    exists own, uuid ::
      && FirstUnder(r.entries, "meta/sessionID", own) && FirstUnder(r.entries, "_uuid", uuid)
      && session == if own.Some? && own.value != "" then Named(own.value)
                    else if uuid.Some? && uuid.value != "" then Named(uuid.value)
                    else Number(r.id)
  }

  /** The row of a record's entry, whose position is counted from 1. */
  ghost predicate RowFor(row: ResultRow, r: Record, i: nat)
    requires i < |r.entries|
  {
    && row.rowId == FloatPairing(r.id, i + 1)
    && (row.question, row.response) == r.entries[i]
    && HasContact(r, row.contact) && HasSession(r, row.session)
  }

  ghost function QuestionHolds(records: seq<Record>): (nat, nat) -> bool {
    (m: nat, i: nat) => m < |records| && i < |records[m].entries| && Asks(records[m].entries[i].0)
  }

  ghost function RowName(records: seq<Record>): (nat, nat) -> ResultRow {
    (m: nat, i: nat) =>
      if m < |records| && i < |records[m].entries| then RowAt(records[m], i + 1)
      else ResultRow(0, None, Number(0), "", "")
  }

  lemma QuestionIs(key: string)
    ensures IsQuestion(key) <==> Asks(key)
  {}

  lemma ContactIs(r: Record)
    ensures HasContact(r, Contact(r))
  {
    GetIsFirst(r.entries, "meta/contactID");
    GetIsFirst(r.entries, "_submitted_by");
  }

  lemma SessionIs(r: Record)
    ensures HasSession(r, SessionOf(r))
  {
    GetIsFirst(r.entries, "meta/sessionID");
    GetIsFirst(r.entries, "_uuid");
  }

  lemma RowAtIs(r: Record, i: nat)
    requires i < |r.entries|
    ensures RowFor(RowAt(r, i + 1), r, i)
  {
    ContactIs(r);
    SessionIs(r);
  }

  ghost function UpTo(r: Record): nat -> seq<ResultRow> {
    (i: nat) => if i <= |r.entries| then RowsOf(r, i) else []
  }

  lemma UpToNext(records: seq<Record>, m: nat, i: nat)
    requires m < |records| && i < |records[m].entries|
    ensures UpTo(records[m])(i + 1)
            == UpTo(records[m])(i) + if QuestionHolds(records)(m, i) then [RowName(records)(m, i)] else []
  {
    QuestionIs(records[m].entries[i].0);
  }

  lemma RecordRow(records: seq<Record>, m: nat)
    requires m < |records|
    ensures var r := records[m];
            RowsOf(r, |r.entries|) == Labels(Row(QuestionHolds(records), m, 0, |r.entries|), RowName(records))
  {
    var n := |records[m].entries|;
    forall i: nat | i < n
      ensures UpTo(records[m])(i + 1)
              == UpTo(records[m])(i) + if QuestionHolds(records)(m, i) then [RowName(records)(m, i)] else []
    {
      UpToNext(records, m, i);
    }
    RowGrown(QuestionHolds(records), m, n, RowName(records), UpTo(records[m]));
  }

  ghost function EntryCounts(records: seq<Record>): nat -> nat {
    (m: nat) => if m < |records| then |records[m].entries| else 0
  }

  lemma {:induction false} RecordsRows(records: seq<Record>, m: nat)
    requires m <= |records|
    ensures AllRows(records)
            == AllRows(records[..m])
               + Labels(Rows(QuestionHolds(records), m, |records|, EntryCounts(records)), RowName(records))
    decreases |records| - m
  {
    var holds, name := QuestionHolds(records), RowName(records);
    if m == |records| {
      assert records[..m] == records && AllRows(records) + [] == AllRows(records);
    } else {
      var n := |records[m].entries|;
      RecordsRows(records, m + 1);
      RecordRow(records, m);
      assert records[..m + 1][..m] == records[..m];
      var rest := Rows(holds, m + 1, |records|, EntryCounts(records));
      LabelsAppend(Row(holds, m, 0, n), rest, name);
      Associates(AllRows(records[..m]), Labels(Row(holds, m, 0, n), name), Labels(rest, name));
    }
  }

  /** Every row is that of an entry which is a question; there is one for each, in the order of records and entries. */
  lemma RowsExactly(records: seq<Record>)
    ensures exists ps: seq<(nat, nat)> ::
              && Lists(ps, QuestionHolds(records))
              && |AllRows(records)| == |ps|
              && forall a | 0 <= a < |ps| ::
                ps[a].0 < |records| && ps[a].1 < |records[ps[a].0].entries|
                && RowFor(AllRows(records)[a], records[ps[a].0], ps[a].1)
  {
    RecordsRows(records, 0);
    var ps := Rows(QuestionHolds(records), 0, |records|, EntryCounts(records));
    var rows := Labels(ps, RowName(records));
    assert records[..0] == [] && [] + rows == rows;
    assert Lists(ps, QuestionHolds(records));
    forall a | 0 <= a < |ps|
      ensures ps[a].0 < |records| && ps[a].1 < |records[ps[a].0].entries|
              && RowFor(rows[a], records[ps[a].0], ps[a].1)
    {
      assert (ps[a].0, ps[a].1) in ps;
      RowAtIs(records[ps[a].0], ps[a].1);
    }
  }
}
