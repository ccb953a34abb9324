/** The rows the dashboard aggregates, and the per-table counts, sums,
    rates and means every view is built from. */
module Transactions {

  datatype Option<+T> = None | Some(value: T)

  /** One row of the active table. `date` is the timestamp the upload's date
      conversion produced: the wall-clock time of the parsed value, in
      seconds, in the column's own time zone; `retryCount` is the
      number of retries before the final status. `amount` is carried along
      but no view reads it. */
  datatype Transaction = Transaction(
    date: int,
    bank: string,
    amount: real,
    status: string,
    retryCount: nat)

  /** The active dataset: the uploaded table's column names and its rows. */
  datatype Dataset = Dataset(columns: set<string>, rows: seq<Transaction>)

  /** Status matching is literal and case-sensitive. */
  const SuccessStatus: string := "success"
  const FailureStatus: string := "failure"

  const SecondsPerDay: int := 86400

  /** The calendar day of a timestamp: the time of day is dropped, so the
      day starts at or before the timestamp and the next one after it. */
  function DayOf(t: int): (d: int)
    ensures d * SecondsPerDay <= t < d * SecondsPerDay + SecondsPerDay
  {
    t / SecondsPerDay
  }

  /** A row whose status is one of the two literal buckets. */
  predicate Classified(t: Transaction) {
    t.status == SuccessStatus || t.status == FailureStatus
  }

  /** Number of rows whose status is exactly `s`. */
  function CountStatus(rows: seq<Transaction>, s: string): (n: nat)
    ensures n <= |rows|
    ensures n == 0 <==> forall i :: 0 <= i < |rows| ==> rows[i].status != s
    ensures n == |rows| <==> forall i :: 0 <= i < |rows| ==> rows[i].status == s
  {
    if rows == [] then 0
    else (if rows[0].status == s then 1 else 0) + CountStatus(rows[1..], s)
  }

  /** The success and failure buckets never overlap, so together they hold
      at most every row, and all of them exactly when every status is one of
      the two literals. */
  lemma {:induction false} StatusCountsPartition(rows: seq<Transaction>)
    ensures CountStatus(rows, SuccessStatus) + CountStatus(rows, FailureStatus) <= |rows|
    ensures CountStatus(rows, SuccessStatus) + CountStatus(rows, FailureStatus) == |rows|
            <==> forall i :: 0 <= i < |rows| ==> Classified(rows[i])
  {
    assert SuccessStatus[0] != FailureStatus[0];
    if rows != [] {
      StatusCountsPartition(rows[1..]);
      assert forall i :: 1 <= i < |rows| ==> rows[i] == rows[1..][i - 1];
    }
  }

  /** Sum of the retry counts of all rows. */
  function RetrySum(rows: seq<Transaction>): nat {
    if rows == [] then 0 else rows[0].retryCount + RetrySum(rows[1..])
  }

  lemma {:induction false} RetrySumBounds(rows: seq<Transaction>, lo: nat, hi: nat)
    requires forall i :: 0 <= i < |rows| ==> lo <= rows[i].retryCount <= hi
    ensures lo * |rows| <= RetrySum(rows) <= hi * |rows|
  {
    if rows != [] {
      RetrySumBounds(rows[1..], lo, hi);
      StepBounds(lo, hi, |rows[1..]|, rows[0].retryCount, RetrySum(rows[1..]));
    }
  }

  lemma StepBounds(lo: int, hi: int, n: int, x: int, sum: int)
    requires lo * n <= sum <= hi * n && lo <= x <= hi
    ensures lo * (n + 1) <= sum + x <= hi * (n + 1)
  {
  }

  /** The arithmetic mean of the retry counts of a non-empty table. */
  function MeanRetry(rows: seq<Transaction>): (m: real)
    requires rows != []
    ensures m * (|rows| as real) == RetrySum(rows) as real
    ensures 0.0 <= m
  {
    RetrySum(rows) as real / |rows| as real
  }

  /** The mean lies between any lower and any upper bound of the retry
      counts, so between their minimum and their maximum. */
  lemma MeanRetryBounds(rows: seq<Transaction>, lo: nat, hi: nat)
    requires rows != []
    requires forall i :: 0 <= i < |rows| ==> lo <= rows[i].retryCount <= hi
    ensures lo as real <= MeanRetry(rows) <= hi as real
  {
    RetrySumBounds(rows, lo, hi);
    QuotientBounds(RetrySum(rows), |rows|, lo, hi);
  }

  lemma QuotientBounds(sum: int, n: int, lo: int, hi: int)
    requires 0 < n && lo * n <= sum <= hi * n
    ensures lo as real <= sum as real / n as real <= hi as real
  {
    var q := sum as real / n as real;
    assert q * (n as real) == sum as real;
    assert (lo * n) as real == (lo as real) * (n as real);
    assert (hi * n) as real == (hi as real) * (n as real);
    CancelFactor(lo as real, q, n as real);
    CancelFactor(q, hi as real, n as real);
  }

  lemma CancelFactor(x: real, y: real, n: real)
    requires 0.0 < n && x * n <= y * n
    ensures x <= y
  {
  }

  /** `k` matching rows out of `n`, as a percentage. */
  function Rate(k: nat, n: nat): (r: real)
    requires 0 < n
    ensures r * (n as real) == 100.0 * (k as real)
    ensures 0.0 <= r
    ensures k <= n ==> r <= 100.0
    ensures r == 0.0 <==> k == 0
    ensures r == 100.0 <==> k == n
  {
    var r := (k as real / n as real) * 100.0;
    assert r * (n as real) == 100.0 * (k as real);
    assert r == 100.0 ==> 100.0 * (n as real) == 100.0 * (k as real);
    r
  }

  /** Two disjoint counts out of `n` give percentages that sum to exactly 100
      if and only if together they cover all `n`. */
  lemma RatesComplement(s: nat, f: nat, n: nat)
    requires 0 < n && s + f <= n
    ensures Rate(s, n) + Rate(f, n) == 100.0 <==> s + f == n
  {
    var a, b := Rate(s, n), Rate(f, n);
    SumOfScaled(a, b, n as real, 100.0 * (s as real), 100.0 * (f as real));
    if a + b == 100.0 {
      assert 100.0 * (n as real) == 100.0 * ((s + f) as real);
    }
  }

  lemma SumOfScaled(a: real, b: real, n: real, x: real, y: real)
    requires a * n == x && b * n == y
    ensures (a + b) * n == x + y
  {
  }
}
