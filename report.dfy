/**
  The evaluation report: one row per tested data row, the pass and fail
  counts, and the success rate printed as a truncated integer percentage.
 */
module Report {

  /** One report line: absolute row number, actual label, predicted label, PASSED or FAILED. */
  datatype ReportRow = ReportRow(rowNumber: int, actual: string, predicted: string, passed: bool)

  /** Number of rows marked PASSED, counted from the front of the report. */
  function CountPassed(rows: seq<ReportRow>): (n: nat)
  {
    if |rows| == 0 then 0
    else CountPassed(rows[..|rows| - 1]) + (if rows[|rows| - 1].passed then 1 else 0)
  }

  /** Number of rows marked FAILED, an independent count of the complementary rows. */
  function CountFailed(rows: seq<ReportRow>): (n: nat)
  {
    if |rows| == 0 then 0
    else CountFailed(rows[..|rows| - 1]) + (if rows[|rows| - 1].passed then 0 else 1)
  }

  /** Appending a row adds one to exactly one of the two counts. */
  lemma {:induction false} CountAppend(rows: seq<ReportRow>, row: ReportRow)
    ensures CountPassed(rows + [row]) == CountPassed(rows) + (if row.passed then 1 else 0)
    ensures CountFailed(rows + [row]) == CountFailed(rows) + (if row.passed then 0 else 1)
  {
    assert (rows + [row])[..|rows|] == rows;
  }

  /** Every row is either passed or failed: the two counts add up to the row count. */
  lemma {:induction false} PassedPlusFailed(rows: seq<ReportRow>)
    ensures CountPassed(rows) + CountFailed(rows) == |rows|
  {
    if |rows| > 0 {
      PassedPlusFailed(rows[..|rows| - 1]);
    }
  }

  /** The pass count never exceeds the number of rows. */
  lemma PassedAtMostTotal(rows: seq<ReportRow>)
    ensures CountPassed(rows) <= |rows|
  {
    PassedPlusFailed(rows);
  }

  /** All rows pass exactly when the pass count equals the row count. */
  lemma {:induction false} AllPassedIff(rows: seq<ReportRow>)
    ensures CountPassed(rows) == |rows| <==> forall k :: 0 <= k < |rows| ==> rows[k].passed
  {
    if |rows| > 0 {
      var front := rows[..|rows| - 1];
      AllPassedIff(front);
      PassedAtMostTotal(front);
      if CountPassed(rows) == |rows| {
        forall k | 0 <= k < |rows| ensures rows[k].passed {
          if k < |rows| - 1 { assert rows[k] == front[k]; }
        }
      }
      if forall k :: 0 <= k < |rows| ==> rows[k].passed {
        forall k | 0 <= k < |front| ensures front[k].passed {
          assert front[k] == rows[k];
        }
      }
    }
  }

  /** No row passes exactly when the pass count is zero. */
  lemma {:induction false} NonePassedIff(rows: seq<ReportRow>)
    ensures CountPassed(rows) == 0 <==> forall k :: 0 <= k < |rows| ==> !rows[k].passed
  {
    if |rows| > 0 {
      var front := rows[..|rows| - 1];
      NonePassedIff(front);
      if CountPassed(rows) == 0 {
        forall k | 0 <= k < |rows| ensures !rows[k].passed {
          if k < |rows| - 1 { assert rows[k] == front[k]; }
        }
      }
      if forall k :: 0 <= k < |rows| ==> !rows[k].passed {
        forall k | 0 <= k < |front| ensures !front[k].passed {
          assert front[k] == rows[k];
        }
      }
    }
  }

  /**
    The printed success rate, `(int)((double)passCount / totalCount * 100)`,
    in integers. With no rows the quotient is NaN and the cast gives 0.
   */
  function SuccessRate(passCount: nat, totalCount: nat): (rate: nat)
  {
    if totalCount == 0 then 0 else (100 * passCount) / totalCount
  }

  /**
    The rate is the percentage rounded down: the largest whole number whose
    share of the total does not exceed the passed share, never above 100.
   */
  lemma SuccessRateTruncates(passCount: nat, totalCount: nat)
    requires passCount <= totalCount && totalCount > 0
    ensures SuccessRate(passCount, totalCount) * totalCount <= 100 * passCount
    ensures 100 * passCount < (SuccessRate(passCount, totalCount) + 1) * totalCount
    ensures SuccessRate(passCount, totalCount) <= 100
  {
    var rate := SuccessRate(passCount, totalCount);
    var rem := (100 * passCount) % totalCount;
    assert 100 * passCount == rate * totalCount + rem;
    assert (rate + 1) * totalCount == rate * totalCount + totalCount;
    if rate > 100 {
      assert rate * totalCount >= 101 * totalCount by {
        MultiplyMonotone(101, rate, totalCount);
      }
      assert false;
    }
  }

  /** a <= b implies a * c <= b * c for a non-negative c. */
  lemma MultiplyMonotone(a: nat, b: nat, c: nat)
    requires a <= b
    ensures a * c <= b * c
  {
  }

  /** Full marks exactly when every row passes; zero when none does. */
  lemma SuccessRateExtremes(passCount: nat, totalCount: nat)
    requires passCount <= totalCount && totalCount > 0
    ensures SuccessRate(passCount, totalCount) == 100 <==> passCount == totalCount
    ensures passCount == 0 ==> SuccessRate(passCount, totalCount) == 0
  {
    SuccessRateTruncates(passCount, totalCount);
    var rate := SuccessRate(passCount, totalCount);
    if passCount == totalCount {
      QuotientUnique(100 * passCount, totalCount, 100, 0);
    } else if rate == 100 {
      assert false;
    }
    if passCount == 0 {
      QuotientUnique(0, totalCount, 0, 0);
    }
  }

  /** Euclidean division has exactly one quotient for a given remainder range. */
  lemma QuotientUnique(n: nat, d: nat, q: nat, r: nat)
    requires d > 0 && r < d && n == q * d + r
    ensures n / d == q
  {
    var q', r' := n / d, n % d;
    assert n == q' * d + r';
    if q' < q {
      MultiplyMonotone(q' + 1, q, d);
      assert false;
    } else if q < q' {
      MultiplyMonotone(q + 1, q', d);
      assert false;
    }
  }

  /** Two rows out of three print as 66%, not 67%. */
  lemma TwoOfThreeIsSixtySix()
    ensures SuccessRate(2, 3) == 66
  {
  }
}
