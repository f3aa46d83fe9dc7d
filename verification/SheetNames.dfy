/** Unique sheet names of bounded length (_generate_unique_sheet_name in onadata/apps/viewer/xls_writer.py). */
module SheetNames {
  import opened Text

  /** A name cut so that a counter fits the limit, followed by the counter. */
  function WithCounter(name: string, i: nat, limit: nat): string
    requires |Decimal(i)| <= limit
  {
    var allowed := limit - |Decimal(i)|;
    (if |name| > allowed then name[..allowed] else name) + Decimal(i)
  }

  predicate CounterFits(i: nat, limit: nat) { i < Pow10(limit) }

  lemma FittingCounter(i: nat, limit: nat)
    requires CounterFits(i, limit) && limit > 0
    ensures |Decimal(i)| <= limit
  {
    DecimalLength(i);
    Pow10Grows(limit, |Decimal(i)| - 1);
  }

  lemma {:induction false} Pow10Grows(a: nat, b: nat)
    ensures a <= b ==> Pow10(a) <= Pow10(b)
  {
    if a < b {
      Pow10Grows(a, b - 1);
    }
  }

  /** The name the loop tries after i turns: each turn works on the name tried before it. */
  function Candidate(name: string, i: nat, limit: nat): string
    requires CounterFits(i, limit) && limit > 0
  {
    if i == 0 then name
    else
      FittingCounter(i, limit);
      WithCounter(Candidate(name, i - 1, limit), i, limit)
  }

  lemma {:induction false} CandidateLength(name: string, i: nat, limit: nat)
    requires CounterFits(i, limit) && limit > 0 && |name| <= limit
    ensures |Candidate(name, i, limit)| <= limit
  {
    if i > 0 {
      FittingCounter(i, limit);
    }
  }

  /** Candidates whose counters have equally many digits differ: they end in their counters. */
  lemma CandidatesDiffer(name: string, i: nat, j: nat, limit: nat)
    requires limit > 0 && CounterFits(i, limit) && CounterFits(j, limit) && i > 0 && j > 0
    requires |Decimal(i)| == |Decimal(j)| && Candidate(name, i, limit) == Candidate(name, j, limit)
    ensures i == j
  {
    FittingCounter(i, limit);
    FittingCounter(j, limit);
    var c, d := Candidate(name, i, limit), |Decimal(i)|;
    assert c[|c| - d..] == Decimal(i);
    assert c[|c| - d..] == Decimal(j);
    DecimalInjective(i, j);
  }

  /** Counters from 10^(d-1) to 10^d - 1 have d digits. */
  lemma DigitCount(i: nat, d: nat)
    requires d > 0 && Pow10(d - 1) <= i < Pow10(d)
    ensures |Decimal(i)| == d
  {
    DecimalLength(i);
    Pow10Grows(|Decimal(i)|, d - 1);
    Pow10Grows(d, |Decimal(i)| - 1);
  }

  function Candidates(name: string, lo: nat, hi: nat, limit: nat): set<string>
    requires limit > 0 && lo <= hi <= Pow10(limit)
    decreases hi - lo
  {
    if lo == hi then {} else {Candidate(name, lo, limit)} + Candidates(name, lo + 1, hi, limit)
  }

  lemma {:induction false} CandidateIn(name: string, lo: nat, hi: nat, limit: nat, c: string)
    requires limit > 0 && lo <= hi <= Pow10(limit) && c in Candidates(name, lo, hi, limit)
    ensures exists i: nat :: lo <= i < hi && CounterFits(i, limit) && c == Candidate(name, i, limit)
    decreases hi - lo
  {
    if lo < hi {
      if c == Candidate(name, lo, limit) {
        assert CounterFits(lo, limit);
      } else {
        CandidateIn(name, lo + 1, hi, limit, c);
      }
    }
  }

  lemma {:induction false} CandidatesCount(name: string, lo: nat, hi: nat, limit: nat, d: nat)
    requires 0 < d <= limit && lo <= hi <= Pow10(limit) && Pow10(d - 1) <= lo && hi <= Pow10(d)
    ensures |Candidates(name, lo, hi, limit)| == hi - lo
    decreases hi - lo
  {
    if lo < hi {
      CandidatesCount(name, lo + 1, hi, limit, d);
      var c := Candidate(name, lo, limit);
      if c in Candidates(name, lo + 1, hi, limit) {
        CandidateIn(name, lo + 1, hi, limit, c);
        var i: nat :| lo + 1 <= i < hi && CounterFits(i, limit) && c == Candidate(name, i, limit);
        DigitCount(lo, d);
        DigitCount(i, d);
        CandidatesDiffer(name, lo, i, limit);
        assert false;
      }
    }
  }

  lemma {:induction false} SubsetSize<T>(a: set<T>, b: set<T>)
    requires a <= b
    ensures |a| <= |b|
  {
    assert b == a + (b - a);
  }

  /** Pigeonhole: if all names tried so far exist, the counter is still below 10^d, for any number d of digits
      with more counters than there are sheets. */
  lemma CounterBound(name: string, k: nat, limit: nat, sheets: set<string>, d: nat)
    requires 0 < d <= limit && |sheets| < 9 * Pow10(d - 1) && k <= Pow10(limit)
    requires forall j: nat :: j < k ==> Candidate(name, j, limit) in sheets
    ensures k < Pow10(d)
  {
    if k >= Pow10(d) {
      var low, high := Pow10(d - 1), Pow10(d);
      CandidatesCount(name, low, high, limit, d);
      forall c | c in Candidates(name, low, high, limit) ensures c in sheets {
        CandidateIn(name, low, high, limit, c);
        var i: nat :| low <= i < high && CounterFits(i, limit) && c == Candidate(name, i, limit);
      }
      SubsetSize(Candidates(name, low, high, limit), sheets);
      assert false;
    }
  }

  /** Room for a fresh name: some number of counter digits within the limit outnumbers the sheets. */
  ghost predicate Room(sheets: set<string>, limit: nat) {
    limit > 0 && |sheets| < 9 * Pow10(limit - 1)
  }

  /** The loop ends, with the first candidate that no sheet has. */
  method GenerateUniqueSheetName(sheetName: string, sheets: set<string>, limit: nat)
      returns (unique: string, ghost k: nat)
    requires Room(sheets, limit)
    ensures CounterFits(k, limit) && unique == Candidate(sheetName, k, limit)
    ensures unique !in sheets
    ensures |sheetName| <= limit ==> |unique| <= limit
    ensures forall j: nat :: j < k ==> Candidate(sheetName, j, limit) in sheets
  {
    k := 0;
    if sheetName !in sheets {
      return sheetName, 0;
    }
    var i := 1;
    unique := sheetName;
    CounterBound(sheetName, 0, limit, sheets, limit);
    while unique in sheets
      invariant i == k + 1 && CounterFits(k, limit)
      invariant unique == Candidate(sheetName, k, limit)
      invariant forall j: nat :: j < k ==> Candidate(sheetName, j, limit) in sheets
      decreases Pow10(limit) - k
    {
      CounterBound(sheetName, k + 1, limit, sheets, limit);
      FittingCounter(i, limit);
      var numberLen := |Decimal(i)|;
      var allowed := limit - numberLen;
      if |unique| > allowed {
        unique := unique[..allowed];
      }
      unique := unique + Decimal(i);
      i := i + 1;
      k := k + 1;
    }
    if |sheetName| <= limit {
      CandidateLength(sheetName, k, limit);
    }
  }

  /** The first candidate is determined by the existing names; it keeps to the limit, and needs few digits. */
  lemma FirstCandidate(name: string, k: nat, m: nat, limit: nat, sheets: set<string>, d: nat)
    requires limit > 0 && |name| <= limit && CounterFits(k, limit) && CounterFits(m, limit)
    requires Candidate(name, k, limit) !in sheets && forall j: nat :: j < k ==> Candidate(name, j, limit) in sheets
    requires Candidate(name, m, limit) !in sheets && forall j: nat :: j < m ==> Candidate(name, j, limit) in sheets
    requires 0 < d <= limit && |sheets| < 9 * Pow10(d - 1)
    ensures k == m && k < Pow10(d) && |Candidate(name, k, limit)| <= limit
  {
    CounterBound(name, k, limit, sheets, d);
    CandidateLength(name, k, limit);
  }
}
