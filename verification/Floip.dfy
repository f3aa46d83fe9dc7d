/**
 FLOIP results: rows of answers grouped into submissions (parse_responses in
 onadata/libs/serializers/floip_serializer.py) and submissions spread over rows (onadata/libs/renderers/renderers.py).
 */
module Floip {
  import opened Common

  // ---------------------------------------------------------------- rows to submissions

  type Row = seq<string>

  const CONTACT := 2
  const SESSION := 3
  const QUESTION := 4
  const ANSWER := 5

  predicate Complete(row: Row) {
    |row| >= 6
  }

  datatype Entry = Meta(instanceID: string, sessionID: string, contactID: string) | Answer(text: string)

  type Submission = map<string, Entry>

  function MetaOf(session: string, row: Row): Entry
    requires Complete(row)
  {
    Meta("uuid:" + session, session, row[CONTACT])
  }

  method ParseResponses(rows: seq<Row>) returns (submissions: seq<Submission>)
    ensures submissions == ByRuns(Runs(CompleteRows(rows)))
  {
    submissions := [];
    var submission: Submission := map[];
    var currentKey: Option<string> := None;
    for i := 0 to |rows|
      invariant LoopState(Runs(CompleteRows(rows[..i])), submissions, submission, currentKey)
    {
      var row := rows[i];
      assert rows[..i + 1][..i] == rows[..i];
      if !Complete(row) {
        assert CompleteRows(rows[..i + 1]) == CompleteRows(rows[..i]);
        continue;
      }
      ghost var runs := Runs(CompleteRows(rows[..i]));
      ghost var before, closed := submission, submissions;
      if currentKey == None {
        currentKey := Some(row[SESSION]);
      }
      if "meta" !in submission {
        submission := submission["meta" := MetaOf(currentKey.value, row)];
      }
      if currentKey.value != row[SESSION] {
        submissions := submissions + [submission];
        submission := map[];
        currentKey := Some(row[SESSION]);
      }
      submission := submission[row[QUESTION] := Answer(row[ANSWER])];
      RowStep(rows, i, runs, closed, before);
    }
    assert rows[..|rows|] == rows;
    submissions := submissions + [submission];
  }

  function CompleteRows(rows: seq<Row>): (r: seq<Row>)
    ensures forall i :: 0 <= i < |r| ==> Complete(r[i])
  {
    if rows == [] then []
    else CompleteRows(rows[..|rows| - 1]) + if Complete(rows[|rows| - 1]) then [rows[|rows| - 1]] else []
  }

  /** Rows of fewer than six columns are passed over, and no others. */
  lemma RowsTaken(rows: seq<Row>, i: nat)
    requires i < |rows|
    ensures CompleteRows(rows[..0]) == []
    ensures CompleteRows(rows[..i + 1]) == CompleteRows(rows[..i]) + if |rows[i]| < 6 then [] else [rows[i]]
  {
    assert rows[..i + 1][..i] == rows[..i];
  }

  // ---------------------------------------------------------------- maximal runs of one session

  /** Non-empty runs of complete rows. */
  ghost predicate AreRuns(runs: seq<seq<Row>>) {
    forall k :: 0 <= k < |runs| ==> IsRun(runs[k])
  }

  ghost predicate IsRun(run: seq<Row>) {
    && |run| > 0 && Complete(run[0])
    && forall i :: 0 <= i < |run| ==> Complete(run[i]) && run[i][SESSION] == run[0][SESSION]
  }

  function Key(run: seq<Row>): string
    requires |run| > 0 && Complete(run[0])
  {
    run[0][SESSION]
  }

  function WithRow(runs: seq<seq<Row>>, row: Row): (r: seq<seq<Row>>)
    requires Complete(row) && AreRuns(runs)
    ensures AreRuns(r) && |r| > 0
  {
    var n := |runs| - 1;
    if runs != [] && Key(runs[n]) == row[SESSION] then runs[..n] + [runs[n] + [row]] else runs + [[row]]
  }

  function Runs(rows: seq<Row>): (runs: seq<seq<Row>>)
    requires forall i :: 0 <= i < |rows| ==> Complete(rows[i])
    ensures AreRuns(runs)
  {
    if rows == [] then [] else WithRow(Runs(rows[..|rows| - 1]), rows[|rows| - 1])
  }

  ghost predicate Alternating(runs: seq<seq<Row>>)
    requires AreRuns(runs)
  {
    forall k :: 0 < k < |runs| ==> Differ(runs, k)
  }

  predicate Differ(runs: seq<seq<Row>>, k: nat)
    requires 0 < k < |runs| && |runs[k - 1]| > 0 && |runs[k]| > 0 && Complete(runs[k - 1][0]) && Complete(runs[k][0])
  {
    Key(runs[k - 1]) != Key(runs[k])
  }

  /** The runs are the rows, cut exactly where the session changes. */
  lemma {:induction false} RunsAreMaximal(rows: seq<Row>)
    requires forall i :: 0 <= i < |rows| ==> Complete(rows[i])
    ensures Flatten(Runs(rows)) == rows && Alternating(Runs(rows))
  {
    if rows != [] {
      var n, row := |rows| - 1, rows[|rows| - 1];
      RunsAreMaximal(rows[..n]);
      var before := Runs(rows[..n]);
      var m := |before| - 1;
      assert rows == rows[..n] + [row];
      if before != [] && Key(before[m]) == row[SESSION] {
        assert before == before[..m] + [before[m]];
        FlattenAppend(before[..m], [before[m]]);
        FlattenAppend(before[..m], [before[m] + [row]]);
        FlattenOne(before[m]);
        FlattenOne(before[m] + [row]);
        forall k | 0 < k < |Runs(rows)|
          ensures Differ(Runs(rows), k)
        {
          assert Differ(before, k);
        }
      } else {
        FlattenAppend(before, [[row]]);
        FlattenOne([row]);
        forall k | 0 < k < |Runs(rows)|
          ensures Differ(Runs(rows), k)
        {
          if k < |before| {
            assert Differ(before, k);
          }
        }
      }
    }
  }

  // ---------------------------------------------------------------- the submission of a run

  function Answers(run: seq<Row>): Submission
    requires forall i :: 0 <= i < |run| ==> Complete(run[i])
  {
    if run == [] then map[] else Answered(Answers(run[..|run| - 1]), run[|run| - 1])
  }

  function Answered(submission: Submission, row: Row): Submission
    requires Complete(row)
  {
    submission[row[QUESTION] := Answer(row[ANSWER])]
  }

  /**
   The row whose contact goes into a run's metadata. The first run takes it from its first row; a later run only at
   the row after its first one, which may already belong to the next run.
   */
  function ContactRow(run: seq<Row>, first: bool, following: Option<Row>): Option<Row>
    requires |run| > 0
  {
    if first then Some(run[0]) else if |run| > 1 then Some(run[1]) else following
  }

  function SubmissionOf(run: seq<Row>, first: bool, following: Option<Row>): Submission
    requires |run| > 0 && (forall i :: 0 <= i < |run| ==> Complete(run[i]))
        && (following.Some? ==> Complete(following.value))
  {
    var contact := ContactRow(run, first, following);
    (if contact.Some? then map["meta" := MetaOf(Key(run), contact.value)] else map[]) + Answers(run)
  }

  /** The submissions of all runs but the last. */
  function Finished(runs: seq<seq<Row>>): seq<Submission>
    requires AreRuns(runs)
  {
    var n := |runs| - 1;
    if n <= 0 then [] else
      assert IsRun(runs[n]) && IsRun(runs[n - 1]);
      Finished(runs[..n]) + [SubmissionOf(runs[n - 1], n == 1, Some(runs[n][0]))]
  }

  function ByRuns(runs: seq<seq<Row>>): seq<Submission>
    requires AreRuns(runs)
  {
    if runs == [] then [map[]] else Finished(runs) + [Last(runs)]
  }

  function Last(runs: seq<seq<Row>>): Submission
    requires AreRuns(runs) && runs != []
  {
    assert IsRun(runs[|runs| - 1]);
    SubmissionOf(runs[|runs| - 1], |runs| == 1, None)
  }

  ghost predicate LoopState(runs: seq<seq<Row>>, submissions: seq<Submission>, submission: Submission,
      key: Option<string>) {
    && AreRuns(runs)
    && if runs == [] then submissions == [] && submission == map[] && key == None
       else
         && submissions == Finished(runs) && submission == Last(runs)
         && IsRun(runs[|runs| - 1]) && key == Some(Key(runs[|runs| - 1]))
  }

  function WithMeta(submission: Submission, session: string, row: Row): Submission
    requires Complete(row)
  {
    if "meta" in submission then submission else submission["meta" := MetaOf(session, row)]
  }

  /** One more complete row: the three cases of the loop's body. */
  lemma RowStep(rows: seq<Row>, i: nat, runs: seq<seq<Row>>, closed: seq<Submission>, before: Submission)
    requires i < |rows| && Complete(rows[i]) && AreRuns(runs) && runs == Runs(CompleteRows(rows[..i]))
    requires runs != [] ==> IsRun(runs[|runs| - 1])
    requires if runs == [] then closed == [] && before == map[] else closed == Finished(runs) && before == Last(runs)
    ensures var row, after := rows[i], Runs(CompleteRows(rows[..i + 1]));
            if runs == [] then
              LoopState(after, [], Answered(WithMeta(before, row[SESSION], row), row), Some(row[SESSION]))
            else if Key(runs[|runs| - 1]) == row[SESSION] then
              LoopState(after, closed, Answered(WithMeta(before, row[SESSION], row), row), Some(row[SESSION]))
            else
              LoopState(after, closed + [WithMeta(before, Key(runs[|runs| - 1]), row)], Answered(map[], row),
                  Some(row[SESSION]))
  {
    var row := rows[i];
    assert rows[..i + 1][..i] == rows[..i];
    var done := CompleteRows(rows[..i]);
    assert (done + [row])[..|done|] == done;
    assert Runs(CompleteRows(rows[..i + 1])) == WithRow(runs, row);
    if runs == [] {
      FirstRow(row);
    } else if Key(runs[|runs| - 1]) == row[SESSION] {
      SameSession(runs, before, row);
    } else {
      NewSession(runs, before, row);
    }
  }

  lemma FirstRow(row: Row)
    requires Complete(row)
    ensures LoopState(WithRow([], row), [], Answered(WithMeta(map[], row[SESSION], row), row), Some(row[SESSION]))
  {
    assert WithRow([], row) == [[row]];
    OneRow(row);
    var m: Submission := map["meta" := MetaOf(row[SESSION], row)];
    assert Answered(m, row) == m + Answered(map[], row);
    assert Last([[row]]) == m + Answers([row]);
  }

  lemma OneRow(row: Row)
    requires Complete(row)
    ensures IsRun([row]) && Key([row]) == row[SESSION]
    ensures Answers([row]) == Answered(map[], row)
  {}

  lemma SameSession(runs: seq<seq<Row>>, submission: Submission, row: Row)
    requires AreRuns(runs) && runs != [] && submission == Last(runs) && Complete(row)
    requires IsRun(runs[|runs| - 1]) && Key(runs[|runs| - 1]) == row[SESSION]
    ensures LoopState(WithRow(runs, row), Finished(runs), Answered(WithMeta(submission, row[SESSION], row), row),
        Some(row[SESSION]))
  {
    var after, n, last := WithRow(runs, row), |runs| - 1, runs[|runs| - 1];
    MetaStep(last, |runs| == 1, row);
    assert (last + [row])[..|last|] == last;
    assert after[..n] == runs[..n] && after[n] == last + [row] && after[n][0] == last[0];
    FinishedSame(runs, after);
    LongerRun(last, |runs| == 1, row);
  }

  lemma LongerRun(run: seq<Row>, first: bool, row: Row)
    requires IsRun(run) && Complete(row)
    ensures Answered(SubmissionOf(run, first, Some(row)), row) == SubmissionOf(run + [row], first, None)
  {}

  lemma NewSession(runs: seq<seq<Row>>, submission: Submission, row: Row)
    requires AreRuns(runs) && runs != [] && submission == Last(runs) && Complete(row)
    requires IsRun(runs[|runs| - 1]) && Key(runs[|runs| - 1]) != row[SESSION]
    ensures LoopState(WithRow(runs, row), Finished(runs) + [WithMeta(submission, Key(runs[|runs| - 1]), row)],
                      Answered(map[], row), Some(row[SESSION]))
  {
    var last := runs[|runs| - 1];
    MetaStep(last, |runs| == 1, row);
    OneRow(row);
    var after := WithRow(runs, row);
    assert after == runs + [[row]];
    assert after[..|runs|] == runs && after[|runs| - 1] == last && after[|runs|] == [row];
    FinishedStep(after);
    LastMore(runs, row);
  }

  lemma LastMore(runs: seq<seq<Row>>, row: Row)
    requires AreRuns(runs + [[row]]) && runs != [] && Complete(row)
    ensures Last(runs + [[row]]) == Answered(map[], row)
  {
    OneRow(row);
    assert (runs + [[row]])[|runs|] == [row];
    assert SubmissionOf([row], false, None) == map[] + Answers([row]) == Answers([row]);
  }

  lemma FinishedStep(runs: seq<seq<Row>>)
    requires AreRuns(runs) && |runs| > 1
    ensures var n := |runs| - 1;
            && IsRun(runs[n]) && IsRun(runs[n - 1])
            && Finished(runs) == Finished(runs[..n]) + [SubmissionOf(runs[n - 1], n == 1, Some(runs[n][0]))]
  {}

  lemma MetaStep(run: seq<Row>, first: bool, row: Row)
    requires IsRun(run) && Complete(row)
    ensures WithMeta(SubmissionOf(run, first, None), Key(run), row) == SubmissionOf(run, first, Some(row))
  {}

  lemma FinishedSame(runs: seq<seq<Row>>, after: seq<seq<Row>>)
    requires AreRuns(runs) && AreRuns(after) && |runs| == |after| > 0
    requires after[..|runs| - 1] == runs[..|runs| - 1] && after[|runs| - 1][0] == runs[|runs| - 1][0]
    ensures Finished(after) == Finished(runs)
  {
    var n := |runs| - 1;
    if n > 0 {
      FinishedStep(runs);
      FinishedStep(after);
      assert after[n - 1] == after[..n][n - 1] == runs[..n][n - 1] == runs[n - 1];
    }
  }

  // ---------------------------------------------------------------- what the submissions hold

  function Following(runs: seq<seq<Row>>, k: nat): (row: Option<Row>)
    requires AreRuns(runs) && k < |runs|
    ensures row.Some? ==> Complete(row.value)
  {
    if k + 1 < |runs| then
      assert IsRun(runs[k + 1]);
      Some(runs[k + 1][0])
    else None
  }

  lemma {:induction false} FinishedAt(runs: seq<seq<Row>>, k: nat)
    requires AreRuns(runs) && k + 1 < |runs|
    ensures |Finished(runs)| == |runs| - 1
    ensures IsRun(runs[k]) && Finished(runs)[k] == SubmissionOf(runs[k], k == 0, Following(runs, k))
    decreases |runs|
  {
    var n := |runs| - 1;
    FinishedStep(runs);
    var before := Finished(runs[..n]);
    if n > 1 {
      FinishedAt(runs[..n], if k + 1 < n then k else 0);
    }
    assert |before| == n - 1 && IsRun(runs[k]);
    if k + 1 < n {
      assert Finished(runs)[k] == before[k] && Following(runs[..n], k) == Following(runs, k);
    } else {
      assert Finished(runs)[k] == SubmissionOf(runs[k], k == 0, Some(runs[n][0]))
          && Following(runs, k) == Some(runs[n][0]);
    }
  }

  /** One submission per run, in order; without complete rows, one empty submission. */
  lemma SubmissionPerRun(runs: seq<seq<Row>>, k: nat)
    requires AreRuns(runs)
    ensures runs == [] ==> ByRuns(runs) == [map[]]
    ensures runs != [] ==> |ByRuns(runs)| == |runs|
    ensures k < |runs| ==> IsRun(runs[k]) && ByRuns(runs)[k] == SubmissionOf(runs[k], k == 0, Following(runs, k))
  {
    if k < |runs| {
      assert IsRun(runs[k]);
      if |runs| > 1 {
        FinishedAt(runs, if k + 1 < |runs| then k else 0);
      }
    } else if |runs| > 1 {
      FinishedAt(runs, 0);
    }
  }

  /** A question's answer is that of its last row in the run. */
  lemma {:induction false} LastAnswerWins(run: seq<Row>, i: nat)
    requires (forall j :: 0 <= j < |run| ==> |run[j]| >= 6) && i < |run| && |run[i]| >= 6
    requires forall j :: i < j < |run| ==> |run[j]| >= 6 && run[j][4] != run[i][4]
    ensures run[i][4] in Answers(run) && Answers(run)[run[i][4]] == Answer(run[i][5])
    decreases |run|
  {
    var n := |run| - 1;
    if i < n {
      LastAnswerWins(run[..n], i);
    }
  }

  lemma {:induction false} AnsweredQuestions(run: seq<Row>, q: string)
    requires forall j :: 0 <= j < |run| ==> |run[j]| >= 6
    ensures q in Answers(run) <==> exists j :: 0 <= j < |run| && run[j][4] == q
    decreases |run|
  {
    if run != [] {
      var n := |run| - 1;
      AnsweredQuestions(run[..n], q);
      assert run[..n] + [run[n]] == run;
    }
  }

  /** The row of a run's contact: its own first or second row, or the first row of the run after a run of one row. */
  function ContactOf(runs: seq<seq<Row>>, k: nat): Option<Row>
    requires AreRuns(runs) && k < |runs|
  {
    assert IsRun(runs[k]);
    if k == 0 then Some(runs[k][0])
    else if |runs[k]| > 1 then Some(runs[k][1])
    else if k + 1 < |runs| then
      assert IsRun(runs[k + 1]);
      Some(runs[k + 1][0])
    else None
  }

  /**
   A run's session is in its rows' fourth column, and metadata names it. It is missing exactly from a last run of one
   row that is not the only run, and its contact belongs to another session exactly when a later run of one row is
   followed by another run.
   */
  lemma MetaExactly(rows: seq<Row>, k: nat)
    requires forall i :: 0 <= i < |rows| ==> |rows[i]| >= 6 && rows[i][4] != "meta"
    requires k < |Runs(rows)|
    ensures var runs := Runs(rows);
            && |ByRuns(runs)| == |runs|
            && IsRun(runs[k])
            && (forall i :: 0 <= i < |runs[k]| ==> runs[k][i][3] == Key(runs[k]))
            && ("meta" !in ByRuns(runs)[k] <==> 0 < k == |runs| - 1 && |runs[k]| == 1)
            && ("meta" in ByRuns(runs)[k] ==>
                  && ContactOf(runs, k).Some?
                  && ByRuns(runs)[k]["meta"]
                      == Meta("uuid:" + Key(runs[k]), Key(runs[k]), ContactOf(runs, k).value[2])
                  && (ContactOf(runs, k).value[3] != Key(runs[k]) <==> 0 < k < |runs| - 1 && |runs[k]| == 1))
  {
    var runs := Runs(rows);
    SubmissionPerRun(runs, k);
    RunsAreMaximal(rows);
    NoMetaQuestion(rows, k);
    if k + 1 < |runs| {
      assert Differ(runs, k + 1);
    }
  }

  lemma NoMetaQuestion(rows: seq<Row>, k: nat)
    requires forall i :: 0 <= i < |rows| ==> Complete(rows[i]) && rows[i][QUESTION] != "meta"
    requires k < |Runs(rows)|
    ensures IsRun(Runs(rows)[k]) && "meta" !in Answers(Runs(rows)[k])
  {}
}
