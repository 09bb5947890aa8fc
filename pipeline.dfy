/**
 * One pass of the dashboard over the rows of the day: normalise, filter,
 * reconcile the hours, add the running sums, then either stop for lack of
 * production data or produce incidents, totals, row colours and the export.
 */
module Pipeline {
  import opened Options
  import opened Seqs
  import opened Rows
  import opened Filters
  import opened Gaps
  import opened Sums
  import opened Alerts

  datatype Dashboard = Dashboard(alerts: seq<Alert>, totals: Totals, tiers: seq<Tier>, csvRows: seq<Row>)

  /**
   * The table after reconciliation, its missing hours, the "Acumulado Real"
   * and "Acumulado Meta" columns, and the dashboard (absent when the pass
   * stops at line 138).
   */
  datatype Report = Report(
    table: seq<Row>,
    missing: seq<int>,
    cumActual: seq<int>,
    cumTarget: seq<int>,
    dashboard: Option<Dashboard>)

  /** Line 138: the table has no production value at all (this includes the empty table). */
  predicate NoValidData(t: seq<Row>): (b: bool)
    ensures b <==> forall x :: x in t ==> x.actual.None?
    ensures t == [] ==> b
  {
    forall i :: 0 <= i < |t| ==> t[i].actual.None?
  }

  /** A table with no production value totals zero output. */
  lemma {:induction false} NoValidDataTotals(t: seq<Row>)
    requires NoValidData(t)
    ensures SumInts(Actuals(t)) == 0
  {
    if t != [] {
      var init := t[..|t| - 1];
      assert Actuals(t)[..|t| - 1] == Actuals(init);
      NoValidDataTotals(init);
    }
  }

  /** Line 69: the sidebar's line choices, "Todas" followed by the configured lines. */
  function LineChoices(): (c: seq<string>)
    ensures |c| == 7 && c[0] == ALL_LINES
    ensures forall i, j :: 0 <= i < j < |c| ==> c[i] != c[j]
  {
    [ALL_LINES, "Atlanta 1", "Atlanta 2", "Litro", "Vertical 1", "Vertical 2", "Vertical 3"]
  }

  /**
   * With the targets built from the six sidebar inputs, every line the
   * sidebar offers meets `Run`'s precondition, and exactly the specific
   * lines fill placeholder targets.
   */
  lemma ChoicesAccepted(atlanta1: int, atlanta2: int, litro: int, vertical1: int, vertical2: int, vertical3: int, line: string)
    requires line in LineChoices()
    ensures var targets := TargetMap(atlanta1, atlanta2, litro, vertical1, vertical2, vertical3);
      && (line == ALL_LINES || line in targets)
      && (line == ALL_LINES <==> FillFor(line, targets).None?)
  {
  }

  /** The target a placeholder gets: the selected line's, or none when every line is shown. */
  function FillFor(line: string, targets: map<string, int>): (fill: Option<int>)
    requires line == ALL_LINES || line in targets
    ensures fill.None? <==> line == ALL_LINES
    ensures fill.Some? ==> fill.value == targets[line]
  {
    if line == ALL_LINES then None else Some(targets[line])
  }

  /**
   * The whole pass. The table and the missing hours are the reconciliation
   * of the filtered, normalised rows; the running sums are prefix sums of
   * output and target; the pass stops exactly when no row has output; else
   * the incidents are the selected rows with their severity, in order.
   */
  method Run(raw: seq<RawRow>, targets: map<string, int>, line: string, shift: string) returns (rep: Report)
    requires line == ALL_LINES || line in targets
    ensures var rec := Reconcile(Filter(Normalize(raw, targets), line, shift), FillFor(line, targets));
      rep.table == rec.table && rep.missing == rec.missing
    ensures |rep.cumActual| == |rep.table| && |rep.cumTarget| == |rep.table|
    ensures forall i :: 0 <= i < |rep.table| ==>
      rep.cumActual[i] == SumInts(Actuals(rep.table)[..i + 1]) && rep.cumTarget[i] == SumInts(Targets(rep.table)[..i + 1])
    ensures rep.dashboard.None? <==> NoValidData(rep.table)
    ensures rep.dashboard.Some? ==>
      var d := rep.dashboard.value;
      && d.totals == Summarize(rep.table)
      && d.tiers == Highlights(rep.table)
      && d.csvRows == WithShift(rep.table)
      && |d.alerts| == |SelectAlerts(rep.table)|
      && forall i :: 0 <= i < |d.alerts| ==>
           d.alerts[i].row == SelectAlerts(rep.table)[i] && d.alerts[i].severity == SeverityOf(d.alerts[i].row.lost)
    ensures rep.dashboard.Some? && |rep.table| > 0 ==>
      rep.cumActual[|rep.table| - 1] == rep.dashboard.value.totals.actual
      && rep.cumTarget[|rep.table| - 1] == rep.dashboard.value.totals.target
  {
    var fill := FillFor(line, targets);
    var df := Normalize(raw, targets);
    df := Filter(df, line, shift);
    ghost var filtered := df;
    var missing: seq<int> := [];
    df := WithHourNum(df);
    var valid := ValidHours(df);
    if valid != [] {
      var lo, hi := MinOf(valid), MaxOf(valid);
      var expected := HoursBetween(lo, hi);
      missing := MissingHours(lo, hi, valid);
      df := Merge(expected, df);
      df := MapSeq(df, Settle(fill));
    }
    assert df == Reconcile(filtered, fill).table;
    var cumActual := RunningSum(Actuals(df));
    var cumTarget := RunningSum(Targets(df));
    var dashboard: Option<Dashboard> := None;
    if !NoValidData(df) {
      var alerts := ClassifyAlerts(df);
      dashboard := Some(Dashboard(alerts, Summarize(df), Highlights(df), WithShift(df)));
    }
    rep := Report(df, missing, cumActual, cumTarget, dashboard);
  }
}
