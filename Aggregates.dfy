/** The numbers the dashboard shows: the KPI pair (app.py lines 73-74), the
    status breakdown of the pie chart (line 90), the monthly trend of the
    bar chart (lines 114-116) and the partner/status table with its share
    of the total (lines 148-151). */
module Aggregates {
  import opened Orders
  import opened Grouping
  import opened Titles
  import opened Filters

  /** "Valor Total" and "Qtd. de Títulos". */
  datatype Kpis = Kpis(totalValue: int, titleCount: nat)

  function KpiTotals(rows: seq<Row>): (k: Kpis)
    ensures k.titleCount == |rows|
    ensures rows == [] ==> k == Kpis(0, 0)
  {
    Kpis(SumValues(rows), |rows|)
  }

  /** The (key, value) pairs a `groupby` sees: rows whose key has a null
      component are dropped, the others contribute their value. */
  function Keyed<K>(rows: seq<Row>, key: Row -> Option<K>): seq<(K, int)> {
    if rows == [] then []
    else (if key(rows[0]).Some? then [(key(rows[0]).value, rows[0].value)] else []) + Keyed(rows[1..], key)
  }

  lemma {:induction false} KeyedKeys<K(!new)>(rows: seq<Row>, key: Row -> Option<K>)
    ensures forall k :: k in Keys(Keyed(rows, key)) <==> exists r :: r in rows && key(r) == Some(k)
  {
    if rows != [] {
      KeyedKeys(rows[1..], key);
      var head := if key(rows[0]).Some? then [(key(rows[0]).value, rows[0].value)] else [];
      var ps := head + Keyed(rows[1..], key);
      assert ps[|head|..] == Keyed(rows[1..], key);
      assert Keys(ps) == Keys(head) + Keys(Keyed(rows[1..], key));
      assert forall r :: r in rows <==> r == rows[0] || r in rows[1..];
    }
  }

  lemma {:induction false} KeyedSums<K(!new)>(rows: seq<Row>, key: Row -> Option<K>, k: K, cs: seq<Criterion>)
    requires forall r :: key(r) == Some(k) <==> Satisfies(r, cs)
    ensures SumOf(Keyed(rows, key), k) == SumValues(Where(rows, cs))
  {
    if rows != [] {
      KeyedSums(rows[1..], key, k, cs);
      var x := rows[0];
      var tail := Keyed(rows[1..], key);
      var w := Where(rows[1..], cs);
      if key(x).Some? {
        var ps := [(key(x).value, x.value)] + tail;
        assert Keyed(rows, key) == ps && ps[1..] == tail;
        assert SumOf(ps, k) == (if key(x).value == k then x.value else 0) + SumOf(tail, k);
      } else {
        assert Keyed(rows, key) == tail;
      }
      if Satisfies(x, cs) {
        assert Where(rows, cs) == [x] + w && ([x] + w)[1..] == w;
        assert SumValues([x] + w) == x.value + SumValues(w);
      } else {
        assert Where(rows, cs) == w;
      }
    }
  }

  lemma {:induction false} KeyedTotal<K>(rows: seq<Row>, key: Row -> Option<K>, cs: seq<Criterion>)
    requires forall r :: key(r).Some? <==> Satisfies(r, cs)
    ensures Total(Keyed(rows, key)) == SumValues(Where(rows, cs))
  {
    if rows != [] {
      KeyedTotal(rows[1..], key, cs);
      var x := rows[0];
      var tail := Keyed(rows[1..], key);
      var w := Where(rows[1..], cs);
      if key(x).Some? {
        var ps := [(key(x).value, x.value)] + tail;
        assert Keyed(rows, key) == ps && ps[1..] == tail;
        assert Total(ps) == x.value + Total(tail);
      } else {
        assert Keyed(rows, key) == tail;
      }
      if Satisfies(x, cs) {
        assert Where(rows, cs) == [x] + w && ([x] + w)[1..] == w;
        assert SumValues([x] + w) == x.value + SumValues(w);
      } else {
        assert Where(rows, cs) == w;
      }
    }
  }

  lemma SatisfiesOne(r: Row, c: Criterion)
    ensures Satisfies(r, [c]) <==> Holds(c, r)
  {
    assert c in [c];
  }

  lemma SatisfiesTwo(r: Row, c: Criterion, d: Criterion)
    ensures Satisfies(r, [c, d]) <==> Holds(c, r) && Holds(d, r)
  {
    assert c in [c, d] && d in [c, d];
  }

  /** A filter every row passes keeps every row. */
  lemma {:induction false} WhereAllPass(rows: seq<Row>, cs: seq<Criterion>)
    requires forall r :: r in rows ==> Satisfies(r, cs)
    ensures Where(rows, cs) == rows
  {
    if rows != [] {
      assert forall r :: r in rows[1..] ==> r in rows;
      WhereAllPass(rows[1..], cs);
      assert rows == [rows[0]] + rows[1..];
    }
  }

  /** What a sorted `groupby(key)[valor].sum()` promises, for any key whose
      value on a row is given by masks: keys ascending and distinct, one
      group per key some row has, each group's value the value of the rows
      with its key, and the value of the rows with a complete key conserved. */
  lemma GroupedRows<K(!new)>(rows: seq<Row>, key: Row -> Option<K>, lt: (K, K) -> bool,
                             keyMasks: K -> seq<Criterion>, anyMasks: seq<Criterion>)
    requires StrictTotalOrder(lt)
    requires forall r, k :: key(r) == Some(k) <==> Satisfies(r, keyMasks(k))
    requires forall r :: key(r).Some? <==> Satisfies(r, anyMasks)
    ensures StrictlySorted(Keys(GroupSum(Keyed(rows, key), lt)), lt)
    ensures forall k :: k in Keys(GroupSum(Keyed(rows, key), lt)) <==> exists r :: r in rows && key(r) == Some(k)
    ensures forall i :: 0 <= i < |GroupSum(Keyed(rows, key), lt)| ==>
      GroupSum(Keyed(rows, key), lt)[i].1 == SumValues(Where(rows, keyMasks(GroupSum(Keyed(rows, key), lt)[i].0)))
    ensures Total(GroupSum(Keyed(rows, key), lt)) == SumValues(Where(rows, anyMasks))
  {
    var ps := Keyed(rows, key);
    var g := GroupSum(ps, lt);
    GroupSumSortedAndExact(ps, lt);
    KeyedKeys(rows, key);
    KeyedTotal(rows, key, anyMasks);
    forall i | 0 <= i < |g| ensures g[i].1 == SumValues(Where(rows, keyMasks(g[i].0))) {
      KeyedSums(rows, key, g[i].0, keyMasks(g[i].0));
    }
  }

  function StatusKey(r: Row): Option<string> {
    r.status
  }

  function StatusMasks(s: string): seq<Criterion> {
    [StatusIn([s])]
  }

  /** Line 90: `df_filtrado.groupby("status_titulo")["valor"].sum()`. */
  function StatusBreakdown(rows: seq<Row>): seq<(string, int)> {
    GroupSum(Keyed(rows, StatusKey), StrLt)
  }

  /** One entry per distinct non-null status among the rows, ascending and
      without repetition (so no group is empty); each entry holds the value
      of the rows with that status; together they hold the value of every
      row whose status is non-null. */
  lemma StatusBreakdownExact(rows: seq<Row>)
    ensures StrictlySorted(Keys(StatusBreakdown(rows)), StrLt)
    ensures forall s :: s in Keys(StatusBreakdown(rows)) <==> exists r :: r in rows && r.status == Some(s)
    ensures forall i :: 0 <= i < |StatusBreakdown(rows)| ==>
      StatusBreakdown(rows)[i].1 == SumValues(Where(rows, [StatusIn([StatusBreakdown(rows)[i].0])]))
    ensures Total(StatusBreakdown(rows)) == SumValues(Where(rows, [HasText(TitleStatus)]))
  {
    StrLtIsStrictTotalOrder();
    forall r, s ensures StatusKey(r) == Some(s) <==> Satisfies(r, StatusMasks(s)) {
      SatisfiesOne(r, StatusIn([s]));
    }
    forall r ensures StatusKey(r).Some? <==> Satisfies(r, [HasText(TitleStatus)]) {
      SatisfiesOne(r, HasText(TitleStatus));
    }
    GroupedRows(rows, StatusKey, StrLt, StatusMasks, [HasText(TitleStatus)]);
  }

  /** When every row has a status, the pie's slices add up to the KPI value. */
  lemma KpiValueCoversBreakdown(rows: seq<Row>)
    requires forall r :: r in rows ==> r.status.Some?
    ensures Total(StatusBreakdown(rows)) == KpiTotals(rows).totalValue
  {
    var masks := [HasText(TitleStatus)];
    forall r ensures StatusKey(r).Some? <==> Satisfies(r, masks) {
      SatisfiesOne(r, HasText(TitleStatus));
    }
    KeyedTotal(rows, StatusKey, masks);
    WhereAllPass(rows, masks);
  }

  function TrendKey(r: Row): Option<(Month, string)> {
    if r.date.Some? && r.status.Some? then Some((MonthOf(r.date.value), r.status.value)) else None
  }

  function TrendMasks(k: (Month, string)): seq<Criterion> {
    [InMonth(k.0), StatusIn([k.1])]
  }

  /** Lines 114-116: `groupby(["mes", "status_titulo"])` over the whole
      loaded row set `df`, not over `df_filtrado`. */
  function MonthlyTrend(rows: seq<Row>): seq<((Month, string), int)> {
    GroupSum(Keyed(rows, TrendKey), Lex(MonthLt, StrLt))
  }

  /** One entry per (month, status) that some dated row with a status has,
      ascending by month and then status; each entry holds the value of the
      rows of that month and status; rows without a parsed date or without
      a status are left out, and the rest is conserved. */
  lemma MonthlyTrendExact(rows: seq<Row>)
    ensures StrictlySorted(Keys(MonthlyTrend(rows)), Lex(MonthLt, StrLt))
    ensures forall i, j :: 0 <= i < j < |MonthlyTrend(rows)| ==>
      !MonthLt(MonthlyTrend(rows)[j].0.0, MonthlyTrend(rows)[i].0.0)
    ensures forall m, s :: (m, s) in Keys(MonthlyTrend(rows)) <==>
      exists r :: r in rows && r.date.Some? && MonthOf(r.date.value) == m && r.status == Some(s)
    ensures forall i :: 0 <= i < |MonthlyTrend(rows)| ==>
      MonthlyTrend(rows)[i].1 ==
        SumValues(Where(rows, [InMonth(MonthlyTrend(rows)[i].0.0), StatusIn([MonthlyTrend(rows)[i].0.1])]))
    ensures Total(MonthlyTrend(rows)) == SumValues(Where(rows, [HasDate, HasText(TitleStatus)]))
  {
    var t := MonthlyTrend(rows);
    var lt := Lex(MonthLt, StrLt);
    MonthLtIsStrictTotalOrder();
    StrLtIsStrictTotalOrder();
    LexIsStrictTotalOrder(MonthLt, StrLt);
    forall r, k ensures TrendKey(r) == Some(k) <==> Satisfies(r, TrendMasks(k)) {
      SatisfiesTwo(r, InMonth(k.0), StatusIn([k.1]));
    }
    forall r ensures TrendKey(r).Some? <==> Satisfies(r, [HasDate, HasText(TitleStatus)]) {
      SatisfiesTwo(r, HasDate, HasText(TitleStatus));
    }
    GroupedRows(rows, TrendKey, lt, TrendMasks, [HasDate, HasText(TitleStatus)]);
    forall i, j | 0 <= i < j < |t| ensures !MonthLt(t[j].0.0, t[i].0.0) {
      assert lt(Keys(t)[i], Keys(t)[j]);
    }
    forall m, s ensures (m, s) in Keys(t) <==>
      exists r :: r in rows && r.date.Some? && MonthOf(r.date.value) == m && r.status == Some(s)
    {
      assert forall r :: TrendKey(r) == Some((m, s)) <==>
        r.date.Some? && MonthOf(r.date.value) == m && r.status == Some(s);
    }
  }

  function TableKey(r: Row): Option<(string, string)> {
    if r.partner.Some? && r.status.Some? then Some((r.partner.value, r.status.value)) else None
  }

  function TableMasks(k: (string, string)): seq<Criterion> {
    [PartnerIs(k.0), StatusIn([k.1])]
  }

  /** Line 149: `df_filtrado.groupby(["nome_parceiro", "status_titulo"])`. */
  function PartnerStatusSums(rows: seq<Row>): seq<((string, string), int)> {
    GroupSum(Keyed(rows, TableKey), Lex(StrLt, StrLt))
  }

  /** One entry per (partner, status) that some row with both has, ascending
      by partner and then status; each entry holds the value of the rows of
      that partner and status; rows missing either are left out, and the
      rest is conserved. */
  lemma PartnerStatusSumsExact(rows: seq<Row>)
    ensures StrictlySorted(Keys(PartnerStatusSums(rows)), Lex(StrLt, StrLt))
    ensures forall p, s :: (p, s) in Keys(PartnerStatusSums(rows)) <==>
      exists r :: r in rows && r.partner == Some(p) && r.status == Some(s)
    ensures forall i :: 0 <= i < |PartnerStatusSums(rows)| ==>
      PartnerStatusSums(rows)[i].1 ==
        SumValues(Where(rows, [PartnerIs(PartnerStatusSums(rows)[i].0.0), StatusIn([PartnerStatusSums(rows)[i].0.1])]))
    ensures Total(PartnerStatusSums(rows)) == SumValues(Where(rows, [HasText(PartnerName), HasText(TitleStatus)]))
  {
    var g := PartnerStatusSums(rows);
    StrLtIsStrictTotalOrder();
    LexIsStrictTotalOrder(StrLt, StrLt);
    forall r, k ensures TableKey(r) == Some(k) <==> Satisfies(r, TableMasks(k)) {
      SatisfiesTwo(r, PartnerIs(k.0), StatusIn([k.1]));
    }
    forall r ensures TableKey(r).Some? <==> Satisfies(r, [HasText(PartnerName), HasText(TitleStatus)]) {
      SatisfiesTwo(r, HasText(PartnerName), HasText(TitleStatus));
    }
    GroupedRows(rows, TableKey, Lex(StrLt, StrLt), TableMasks, [HasText(PartnerName), HasText(TitleStatus)]);
    forall p, s ensures (p, s) in Keys(g) <==> exists r :: r in rows && r.partner == Some(p) && r.status == Some(s) {
      assert forall r :: TableKey(r) == Some((p, s)) <==> r.partner == Some(p) && r.status == Some(s);
    }
  }

  function RealSum(xs: seq<real>): real {
    if xs == [] then 0.0 else xs[0] + RealSum(xs[1..])
  }

  /** Line 151 before `.round(2)`: each group's value as a percentage of `total`. */
  function Shares(gs: seq<((string, string), int)>, total: int): (ps: seq<real>)
    requires total != 0
    ensures |ps| == |gs|
    ensures forall i :: 0 <= i < |gs| ==> ps[i] == gs[i].1 as real / total as real * 100.0
  {
    if gs == [] then []
    else
      var rest := Shares(gs[1..], total);
      var ps := [gs[0].1 as real / total as real * 100.0] + rest;
      assert forall i :: 1 <= i < |gs| ==> ps[i] == rest[i - 1] && gs[i] == gs[1..][i - 1];
      ps
  }

  lemma {:induction false} SharesSum(gs: seq<((string, string), int)>, total: int)
    requires total != 0
    ensures RealSum(Shares(gs, total)) == Total(gs) as real / total as real * 100.0
  {
    if gs != [] {
      SharesSum(gs[1..], total);
      var t := total as real;
      var a := gs[0].1 as real;
      var b := Total(gs[1..]) as real;
      assert Shares(gs, total)[1..] == Shares(gs[1..], total);
      calc {
        RealSum(Shares(gs, total));
        a / t * 100.0 + b / t * 100.0;
        { assert a / t + b / t == (a + b) / t; }
        (a + b) / t * 100.0;
      }
    }
  }

  /** The detail table: the grouped rows, `valor_total_geral` and the
      "% do Total" column. The column is `None` where the division by a
      zero total gives infinities or NaN. */
  datatype Table = Table(groups: seq<((string, string), int)>, total: int, shares: Option<seq<real>>)

  function Percentages(gs: seq<((string, string), int)>, total: int): Option<seq<real>> {
    if gs == [] then Some([])
    else if total == 0 then None
    else Some(Shares(gs, total))
  }

  lemma DivSelf(t: real)
    requires t != 0.0
    ensures t / t == 1.0
  {
  }

  /** With a non-zero total the unrounded percentages add up to 100. */
  lemma {:induction false} PercentagesAddUpTo100(gs: seq<((string, string), int)>)
    requires Total(gs) != 0
    ensures Percentages(gs, Total(gs)).Some?
    ensures |Percentages(gs, Total(gs)).value| == |gs|
    ensures RealSum(Percentages(gs, Total(gs)).value) == 100.0
  {
    var t := Total(gs) as real;
    assert gs != [];
    SharesSum(gs, Total(gs));
    DivSelf(t);
  }

  /** Lines 148-151: no table when no row passed the filters; otherwise the
      total is the value of the rows that have both a partner and a status;
      when it is non-zero each group's share is its value over the total,
      times 100, and the unrounded shares add up to 100. */
  function DetailTable(rows: seq<Row>): (t: Option<Table>)
    ensures t.None? <==> rows == []
    ensures t.Some? ==> t.value.groups == PartnerStatusSums(rows) && t.value.total == Total(t.value.groups)
    ensures t.Some? ==> t.value.total == SumValues(Where(rows, [HasText(PartnerName), HasText(TitleStatus)]))
    ensures t.Some? && t.value.total != 0 ==> t.value.shares == Some(Shares(t.value.groups, t.value.total))
    ensures t.Some? && t.value.groups == [] ==> t.value.shares == Some([])
    ensures t.Some? && t.value.total != 0 ==>
      && t.value.shares.Some?
      && |t.value.shares.value| == |t.value.groups|
      && RealSum(t.value.shares.value) == 100.0
    ensures t.Some? && t.value.total == 0 && t.value.groups != [] ==> t.value.shares.None?
  {
    if rows == [] then None
    else
      var g := PartnerStatusSums(rows);
      PartnerStatusSumsExact(rows);
      if Total(g) != 0 then
        PercentagesAddUpTo100(g);
        Some(Table(g, Total(g), Percentages(g, Total(g))))
      else
        Some(Table(g, Total(g), Percentages(g, Total(g))))
  }
}
