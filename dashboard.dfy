/** The dashboard page's computations over the active dataset: the headline
    metrics, the per-day trend, the per-bank peer comparison and the lowest
    and highest bank by success rate, and what the page shows when no dataset
    is loaded or the loaded one is empty. */
module Dashboard {
  import opened Transactions
  import opened Grouping

  // ---------- Headline metrics ----------

  datatype Headline = Headline(
    total: nat,
    successes: nat,
    failures: nat,
    successRate: real,
    failureRate: real,
    avgRetry: real)

  /** The headline metrics of a table. `None` is the division by zero that an
      empty table raises when the success rate is computed. */
  function Headlines(rows: seq<Transaction>): (h: Option<Headline>)
    ensures h.None? <==> rows == []
    ensures h.Some? ==>
      && h.value.total == |rows|
      && h.value.successes == CountStatus(rows, SuccessStatus)
      && h.value.failures == CountStatus(rows, FailureStatus)
      && h.value.successes + h.value.failures <= h.value.total
      && 0.0 <= h.value.successRate <= 100.0
      && 0.0 <= h.value.failureRate <= 100.0
      && h.value.successRate == Rate(h.value.successes, h.value.total)
      && h.value.failureRate == Rate(h.value.failures, h.value.total)
      && h.value.avgRetry == MeanRetry(rows)
  {
    if rows == [] then None
    else
      StatusCountsPartition(rows);
      var s, f := CountStatus(rows, SuccessStatus), CountStatus(rows, FailureStatus);
      Some(Headline(|rows|, s, f, Rate(s, |rows|), Rate(f, |rows|), MeanRetry(rows)))
  }

  /** The two headline rates add up to exactly 100 if and only if every
      status is literally "success" or "failure"; any other status (a
      different spelling included) makes them fall short. */
  lemma HeadlineRatesComplete(rows: seq<Transaction>)
    requires rows != []
    ensures Headlines(rows).value.successRate + Headlines(rows).value.failureRate == 100.0
            <==> forall i :: 0 <= i < |rows| ==> Classified(rows[i])
  {
    StatusCountsPartition(rows);
    RatesComplement(CountStatus(rows, SuccessStatus), CountStatus(rows, FailureStatus), |rows|);
  }

  // ---------- Daily trend ----------

  datatype DailyRow = DailyRow(day: int, successRate: real, failureRate: real, avgRetry: real)

  /** Rows are grouped by the calendar day of their timestamp. */
  function DayKey(t: Transaction): int {
    DayOf(t.date)
  }

  /** The trend row of one day that occurs in the table. */
  function DayRow(rows: seq<Transaction>, d: int): (r: DailyRow)
    requires d in KeysOf(rows, DayKey)
    ensures r.day == d
    ensures 0.0 <= r.successRate <= 100.0 && 0.0 <= r.failureRate <= 100.0
  {
    var g := Group(rows, DayKey, d);
    DailyRow(d, Rate(CountStatus(g, SuccessStatus), |g|), Rate(CountStatus(g, FailureStatus), |g|), MeanRetry(g))
  }

  function DailyRows(rows: seq<Transaction>, ds: seq<int>): (r: seq<DailyRow>)
    requires forall i :: 0 <= i < |ds| ==> ds[i] in KeysOf(rows, DayKey)
    ensures |r| == |ds|
    ensures forall i :: 0 <= i < |ds| ==> r[i] == DayRow(rows, ds[i])
  {
    if ds == [] then []
    else
      var rest := DailyRows(rows, ds[1..]);
      assert forall i :: 1 <= i < |ds| ==> ds[i] == ds[1..][i - 1];
      [DayRow(rows, ds[0])] + rest
  }

  /** The per-day trend: one row per distinct day that occurs in the table,
      strictly ascending by day; each row holds that day's success and
      failure share as a percentage and its mean retry count. Days with no
      rows do not appear. */
  function Daily(rows: seq<Transaction>): (daily: seq<DailyRow>)
    ensures forall i, j :: 0 <= i < j < |daily| ==> daily[i].day < daily[j].day
    ensures forall i :: 0 <= i < |daily| ==> daily[i].day in KeysOf(rows, DayKey)
    ensures forall t :: t in rows ==> exists i :: 0 <= i < |daily| && daily[i].day == DayOf(t.date)
    ensures forall i :: 0 <= i < |daily| ==> daily[i] == DayRow(rows, daily[i].day)
  {
    IntLessIsStrictTotal();
    var ds := SortedKeys(rows, DayKey, IntLess);
    var daily := DailyRows(rows, ds);
    assert forall t :: t in rows ==> DayKey(t) in KeysOf(rows, DayKey);
    daily
  }

  /** Each trend row is computed from that day's rows, of which there is at
      least one: its rates are 100 times the day's share of "success" and of
      "failure" rows, and its retry figure is the day's mean. */
  lemma DailyRowOfItsDay(rows: seq<Transaction>, i: nat)
    requires i < |Daily(rows)|
    ensures var r := Daily(rows)[i];
      var g := Group(rows, DayKey, r.day);
      && |g| > 0
      && (forall t :: t in g <==> t in rows && DayOf(t.date) == r.day)
      && r.successRate == Rate(CountStatus(g, SuccessStatus), |g|)
      && r.failureRate == Rate(CountStatus(g, FailureStatus), |g|)
      && r.avgRetry == MeanRetry(g)
  {
    GroupMembers(rows, DayKey, Daily(rows)[i].day);
  }

  // ---------- Peer comparison ----------

  datatype PeerRow = PeerRow(bank: string, successRate: real, txns: nat)

  function BankKey(t: Transaction): string {
    t.bank
  }

  /** The comparison row of one bank that occurs in the table. */
  function PeerRowFor(rows: seq<Transaction>, b: string): (r: PeerRow)
    requires b in KeysOf(rows, BankKey)
    ensures r.bank == b && r.txns > 0
    ensures 0.0 <= r.successRate <= 100.0
  {
    var g := Group(rows, BankKey, b);
    PeerRow(b, Rate(CountStatus(g, SuccessStatus), |g|), |g|)
  }

  function PeerRows(rows: seq<Transaction>, bs: seq<string>): (r: seq<PeerRow>)
    requires forall i :: 0 <= i < |bs| ==> bs[i] in KeysOf(rows, BankKey)
    ensures |r| == |bs|
    ensures forall i :: 0 <= i < |bs| ==> r[i] == PeerRowFor(rows, bs[i])
  {
    if bs == [] then []
    else
      var rest := PeerRows(rows, bs[1..]);
      assert forall i :: 1 <= i < |bs| ==> bs[i] == bs[1..][i - 1];
      [PeerRowFor(rows, bs[0])] + rest
  }

  /** The per-bank comparison: one row per distinct bank of the table, in
      ascending order of bank name; each row holds the bank's number of rows
      and its success share as a percentage. */
  function PeerComparison(rows: seq<Transaction>): (peer: seq<PeerRow>)
    ensures forall i, j :: 0 <= i < j < |peer| ==> StrLess(peer[i].bank, peer[j].bank)
    ensures forall i, j :: 0 <= i < j < |peer| ==> peer[i].bank != peer[j].bank
    ensures forall i :: 0 <= i < |peer| ==> peer[i].bank in KeysOf(rows, BankKey)
    ensures forall t :: t in rows ==> exists i :: 0 <= i < |peer| && peer[i].bank == t.bank
    ensures forall i :: 0 <= i < |peer| ==> peer[i] == PeerRowFor(rows, peer[i].bank)
    ensures rows != [] ==> peer != []
  {
    StrLessIsStrictTotal();
    var bs := SortedKeys(rows, BankKey, StrLess);
    AscendingIsDistinct(bs, StrLess);
    var peer := PeerRows(rows, bs);
    assert forall t :: t in rows ==> BankKey(t) in KeysOf(rows, BankKey);
    assert rows != [] ==> BankKey(rows[0]) in bs;
    peer
  }

  /** Each comparison row is computed from that bank's rows: `txns` is
      their number, at least one, and the rate is 100 times their share of
      "success" rows. */
  lemma PeerRowOfItsBank(rows: seq<Transaction>, i: nat)
    requires i < |PeerComparison(rows)|
    ensures var r := PeerComparison(rows)[i];
      var g := Group(rows, BankKey, r.bank);
      && (forall t :: t in g <==> t in rows && t.bank == r.bank)
      && r.txns == |g| > 0
      && r.successRate == Rate(CountStatus(g, SuccessStatus), |g|)
  {
    GroupMembers(rows, BankKey, PeerComparison(rows)[i].bank);
  }

  function SumTxns(peer: seq<PeerRow>): nat {
    if peer == [] then 0 else peer[0].txns + SumTxns(peer[1..])
  }

  lemma {:induction false} SumTxnsGroupSizes(rows: seq<Transaction>, bs: seq<string>)
    requires forall i :: 0 <= i < |bs| ==> bs[i] in KeysOf(rows, BankKey)
    ensures SumTxns(PeerRows(rows, bs)) == GroupSizes(rows, BankKey, bs)
  {
    if bs != [] {
      SumTxnsGroupSizes(rows, bs[1..]);
      assert PeerRows(rows, bs)[1..] == PeerRows(rows, bs[1..]);
    }
  }

  /** The per-bank transaction counts add up to the number of rows. */
  lemma PeerTxnsSum(rows: seq<Transaction>)
    ensures SumTxns(PeerComparison(rows)) == |rows|
  {
    StrLessIsStrictTotal();
    var bs := SortedKeys(rows, BankKey, StrLess);
    AscendingIsDistinct(bs, StrLess);
    SumTxnsGroupSizes(rows, bs);
    assert forall t :: t in rows ==> BankKey(t) in KeysOf(rows, BankKey);
    GroupsPartition(rows, BankKey, bs);
  }

  // ---------- Insights ----------

  /** Ascending by success rate: each row's rate is at most that of every
      row after it. */
  ghost predicate SortedByRate(s: seq<PeerRow>) {
    s == [] || ((forall p :: p in s[1..] ==> s[0].successRate <= p.successRate) && SortedByRate(s[1..]))
  }

  /** The last row of a rate-sorted table has the highest rate. */
  lemma {:induction false} SortedLastIsMax(s: seq<PeerRow>)
    requires s != [] && SortedByRate(s)
    ensures forall p :: p in s ==> p.successRate <= s[|s| - 1].successRate
  {
    if |s| > 1 {
      SortedLastIsMax(s[1..]);
      assert s[|s| - 1] == s[1..][|s| - 2];
      assert s[|s| - 1] in s[1..];
      assert s == [s[0]] + s[1..];
    }
  }

  function InsertByRate(x: PeerRow, s: seq<PeerRow>): (r: seq<PeerRow>)
    requires SortedByRate(s)
    ensures SortedByRate(r)
    ensures multiset(r) == multiset(s) + multiset{x}
    ensures forall p :: p in r ==> p == x || p in s
    ensures |r| == |s| + 1
  {
    if s == [] then [x]
    else if x.successRate <= s[0].successRate then
      assert forall p :: p in s ==> p == s[0] || p in s[1..];
      [x] + s
    else
      assert s == [s[0]] + s[1..];
      var rest := InsertByRate(x, s[1..]);
      assert ([s[0]] + rest)[1..] == rest;
      [s[0]] + rest
  }

  /** The peer table ordered by ascending success rate. The order among
      equal rates is not part of the contract. */
  function SortByRate(s: seq<PeerRow>): (r: seq<PeerRow>)
    ensures SortedByRate(r)
    ensures multiset(r) == multiset(s)
    ensures |r| == |s|
  {
    if s == [] then []
    else
      assert s == [s[0]] + s[1..];
      InsertByRate(s[0], SortByRate(s[1..]))
  }

  datatype Insights = Insights(worst: PeerRow, best: PeerRow)

  /** The first and the last row of the rate-sorted peer table. `None` is
      the indexing error of an empty table. */
  function Extremes(peer: seq<PeerRow>): (ins: Option<Insights>)
    ensures ins.None? <==> peer == []
  {
    if peer == [] then None
    else
      var sorted := SortByRate(peer);
      Some(Insights(sorted[0], sorted[|sorted| - 1]))
  }

  /** The worst bank has the lowest success rate of the peer table and the
      best bank the highest, both are rows of the table, and with a single
      bank they are the same row. */
  /** Every row of `peer` has a success rate between those of `lo` and `hi`. */
  ghost predicate RatesBetween(peer: seq<PeerRow>, lo: PeerRow, hi: PeerRow) {
    forall p :: p in peer ==> lo.successRate <= p.successRate <= hi.successRate
  }

  lemma ExtremesAreMinMax(peer: seq<PeerRow>, ins: Insights)
    requires Extremes(peer) == Some(ins)
    ensures ins.worst in peer && ins.best in peer
    ensures RatesBetween(peer, ins.worst, ins.best)
    ensures |peer| == 1 ==> ins == Insights(peer[0], peer[0])
  {
    var sorted := SortByRate(peer);
    assert sorted[0] in multiset(sorted) && sorted[|sorted| - 1] in multiset(sorted);
    SortedLastIsMax(sorted);
    assert forall p :: p in sorted ==> p == sorted[0] || p in sorted[1..];
    forall p | p in peer
      ensures ins.worst.successRate <= p.successRate <= ins.best.successRate
    {
      assert p in multiset(sorted);
    }
  }

  // ---------- The page ----------

  datatype Report = Report(headline: Headline, daily: seq<DailyRow>, peer: seq<PeerRow>, insights: Insights)

  /** What the dashboard page produces: a prompt to upload when no dataset is
      loaded, the division-by-zero fault for a loaded table without rows, and
      otherwise every view computed from the same rows. */
  datatype View = UploadPrompt | ZeroDivisionFault | Rendered(report: Report)

  function Render(active: Option<Dataset>): (v: View)
    ensures v.UploadPrompt? <==> active.None?
    ensures v.ZeroDivisionFault? <==> active.Some? && active.value.rows == []
    ensures v.Rendered? ==> v.report == BuildReport(active.value.rows)
  {
    if active.None? then UploadPrompt
    else if active.value.rows == [] then ZeroDivisionFault
    else Rendered(BuildReport(active.value.rows))
  }

  /** Every view of a non-empty table, each computed from the same rows; the
      insights are taken from the peer table shown beside them. */
  function BuildReport(rows: seq<Transaction>): (r: Report)
    requires rows != []
    ensures Headlines(rows) == Some(r.headline)
    ensures r.daily == Daily(rows) && r.peer == PeerComparison(rows)
    ensures r.peer != [] && Extremes(r.peer) == Some(r.insights)
  {
    var peer := PeerComparison(rows);
    Report(Headlines(rows).value, Daily(rows), peer, Extremes(peer).value)
  }

  /** The views of one report agree with each other: the per-bank counts add
      up to the headline total, and the worst and best bank are rows of the
      comparison shown, with its lowest and highest success rate. */
  lemma ReportConsistent(rows: seq<Transaction>)
    requires rows != []
    ensures var r := BuildReport(rows);
      && SumTxns(r.peer) == r.headline.total
      && r.insights.worst in r.peer && r.insights.best in r.peer
      && RatesBetween(r.peer, r.insights.worst, r.insights.best)
  {
    var r := BuildReport(rows);
    PeerTxnsSum(rows);
    ExtremesAreMinMax(r.peer, r.insights);
  }

  /** The page with a loaded but empty table treated like a missing one: it
      never faults, and agrees with `Render` on every other input. */
  function RenderGuarded(active: Option<Dataset>): (v: View)
    ensures !v.ZeroDivisionFault?
    ensures v.UploadPrompt? <==> active.None? || active.value.rows == []
    ensures active.Some? && active.value.rows != [] ==> v == Render(active)
  {
    if active.None? || active.value.rows == [] then UploadPrompt else Render(active)
  }
}
