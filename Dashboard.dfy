/** One pass of the dashboard script over the loaded rows: filter, then
    compute every number the page shows (app.py lines 63-156). */
module Dashboard {
  import opened Orders
  import opened Grouping
  import opened Titles
  import opened Filters
  import opened Aggregates

  /** The values handed to the widgets: the KPI pair, the pie's breakdown,
      the bar chart's series and the detail table (absent when the page
      shows the "no data" notice instead). */
  datatype View = View(kpis: Kpis, pie: seq<(string, int)>, trend: seq<((Month, string), int)>, table: Option<Table>)

  method Render(rows: seq<Row>, sel: Selection) returns (shown: seq<Row>, view: View)
    requires ValidSelection(rows, sel)
    ensures shown == Filtered(rows, sel)
    ensures view == View(KpiTotals(shown), StatusBreakdown(shown), MonthlyTrend(rows), DetailTable(shown))
    ensures forall r :: r in shown <==> r in rows && Matches(r, sel)
    ensures view.kpis.titleCount == |shown| && view.kpis.totalValue == SumValues(shown)
    ensures forall s :: s in Keys(view.pie) <==> exists r :: r in shown && r.status == Some(s)
    ensures Total(view.pie) == SumValues(Where(shown, [HasText(TitleStatus)]))
    ensures Total(view.trend) == SumValues(Where(rows, [HasDate, HasText(TitleStatus)]))
    ensures view.table.Some? <==> shown != []
  {
    shown := ApplyFilters(rows, sel);
    var kpis := KpiTotals(shown);
    var pie := StatusBreakdown(shown);
    StatusBreakdownExact(shown);
    var trend := MonthlyTrend(rows);
    MonthlyTrendExact(rows);
    var table := DetailTable(shown);
    view := View(kpis, pie, trend, table);
  }

  function SampleRows(): seq<Row> {
    [ Row(Some(Date(2024, 1, 15)), Some("Acme"), Some("Paid"), Some("X"), 100),
      Row(Some(Date(2024, 1, 20)), Some("Acme"), Some("Pending"), Some("X"), 50),
      Row(Some(Date(2024, 2, 1)), Some("Beta"), Some("Paid"), Some("Y"), 200) ]
  }

  function JanuaryRows(): seq<Row> {
    [ Row(Some(Date(2024, 1, 15)), Some("Acme"), Some("Paid"), Some("X"), 100),
      Row(Some(Date(2024, 1, 20)), Some("Acme"), Some("Pending"), Some("X"), 50) ]
  }

  lemma SampleJanuaryShown()
    ensures Filtered(SampleRows(), Selection(Month(2024, 1), ALL, ALL, ["Paid", "Pending"])) == JanuaryRows()
  {
    var rows := SampleRows();
    var sel := Selection(Month(2024, 1), ALL, ALL, ["Paid", "Pending"]);
    StagesAreMatches(sel);
    assert Matches(rows[0], sel) && Matches(rows[1], sel) && !Matches(rows[2], sel);
    assert Where(rows[2..], Stages(sel)) == [];
  }

  lemma SampleJanuaryBreakdown()
    ensures StatusBreakdown(JanuaryRows()) == [("Paid", 100), ("Pending", 50)]
  {
    var ps := Keyed(JanuaryRows(), StatusKey);
    assert ps == [("Paid", 100), ("Pending", 50)];
    assert GroupSum(ps[1..], StrLt) == [("Pending", 50)];
    assert StrLt("Paid", "Pending");
  }

  lemma SampleJanuaryTable()
    ensures DetailTable(JanuaryRows()) == Some(Table([(("Acme", "Paid"), 100), (("Acme", "Pending"), 50)], 150,
                                                 Some([200.0 / 3.0, 100.0 / 3.0])))
  {
    var ps := Keyed(JanuaryRows(), TableKey);
    assert ps == [(("Acme", "Paid"), 100), (("Acme", "Pending"), 50)];
    assert GroupSum(ps[1..], Lex(StrLt, StrLt)) == [(("Acme", "Pending"), 50)];
    assert StrLt("Paid", "Pending");
    var g := PartnerStatusSums(JanuaryRows());
    assert g == ps;
    assert Total(g) == 150;
    var shares := Shares(g, 150);
    assert shares[0] == 100.0 / 150.0 * 100.0 == 200.0 / 3.0;
    assert shares[1] == 50.0 / 150.0 * 100.0 == 100.0 / 3.0;
    assert shares == [200.0 / 3.0, 100.0 / 3.0];
  }

  /** A three-row example: January with every partner and bank and both
      statuses selected. */
  lemma SampleJanuary()
    ensures var shown := Filtered(SampleRows(), Selection(Month(2024, 1), ALL, ALL, ["Paid", "Pending"]));
      && KpiTotals(shown) == Kpis(150, 2)
      && StatusBreakdown(shown) == [("Paid", 100), ("Pending", 50)]
      && DetailTable(shown) == Some(Table([(("Acme", "Paid"), 100), (("Acme", "Pending"), 50)], 150,
                                          Some([200.0 / 3.0, 100.0 / 3.0])))
  {
    SampleJanuaryShown();
    SampleJanuaryBreakdown();
    SampleJanuaryTable();
  }

  /** The same rows with no status selected: line 68 skips the status mask,
      so January's rows are all shown rather than none. */
  lemma SampleEmptyStatusSelection()
    ensures KpiTotals(Filtered(SampleRows(), Selection(Month(2024, 1), ALL, ALL, []))) == Kpis(150, 2)
  {
    var rows := SampleRows();
    var sel := Selection(Month(2024, 1), ALL, ALL, []);
    StagesAreMatches(sel);
    assert Matches(rows[0], sel) && Matches(rows[1], sel) && !Matches(rows[2], sel);
    assert Where(rows[2..], Stages(sel)) == [];
    assert Filtered(rows, sel) == JanuaryRows();
  }
}
