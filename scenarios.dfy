/** Concrete runs of the upload page followed by the dashboard page. */
module Scenarios {
  import opened Transactions
  import opened Dashboard
  import opened Upload

  /** A file with every required column and no rows is accepted and becomes
      the active dataset; the dashboard then faults on the empty table,
      while the guarded page shows the upload prompt instead. */
  method HeaderOnlyUploadThenView(parse: string -> Option<int>) returns (notice: Notice, v: View, guarded: View)
    ensures notice == Uploaded
    ensures v == ZeroDivisionFault
    ensures guarded == UploadPrompt
  {
    var session := new Session();
    notice := session.Upload(Some(Csv(RequiredColumns, [])), parse);
    v := Render(session.txnData);
    guarded := RenderGuarded(session.txnData);
  }

  /** A rejected upload keeps the dataset that was active before it. */
  method RejectedUploadKeepsDataset(parse: string -> Option<int>, rows: seq<RawRow>)
    returns (before: Option<Dataset>, after: Option<Dataset>)
    requires forall i :: 0 <= i < |rows| ==> parse(rows[i].date).Some?
    ensures before.Some? && after == before
  {
    var session := new Session();
    var first := session.Upload(Some(Csv(RequiredColumns, rows)), parse);
    before := session.txnData;
    var second := session.Upload(Some(Csv(RequiredColumns - {"status"}, rows)), parse);
    assert second == FormatInvalid by {
      assert "status" in RequiredColumns;
    }
    after := session.txnData;
  }

  /** Statuses are matched literally: an upper-case "SUCCESS" row counts in
      the total but in neither bucket, so the two rates fall short of 100. */
  lemma UpperCaseStatusInNoBucket()
    ensures var rows := [Transaction(0, "ICICI", 100.0, "success", 0), Transaction(0, "ICICI", 200.0, "SUCCESS", 1)];
      var h := Headlines(rows).value;
      h.total == 2 && h.successes == 1 && h.failures == 0 && h.successRate + h.failureRate == 50.0
  {
    var rows := [Transaction(0, "ICICI", 100.0, "success", 0), Transaction(0, "ICICI", 200.0, "SUCCESS", 1)];
    assert rows[1].status != SuccessStatus && rows[1].status != FailureStatus by {
      assert rows[1].status[0] != SuccessStatus[0] && rows[1].status[0] != FailureStatus[0];
    }
    assert CountStatus(rows[1..], SuccessStatus) == 0;
    assert CountStatus(rows, SuccessStatus) == 1;
    assert CountStatus(rows, FailureStatus) == 0;
  }
}
