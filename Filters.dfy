/** The sidebar: the options each filter offers (app.py lines 46-61) and the
    chain of boolean masks that narrows the loaded rows (lines 63-69). */
module Filters {
  import opened Orders
  import opened Grouping
  import opened Titles

  /** The sentinel prefixed to the partner and bank lists. */
  const ALL: string := "Todos"

  /** One boolean mask over the rows. The first four are the sidebar's
      (lines 63, 65, 67, 69); the last two are the null checks a
      `groupby` applies to its key columns. */
  datatype Criterion =
    | InMonth(month: Month)
    | PartnerIs(partner: string)
    | BankIs(bank: string)
    | StatusIn(statuses: seq<string>)
    | HasDate
    | HasText(column: TextColumn)

  /** Whether the mask is true on a row. A null cell compares unequal to
      any value and is never `isin` a list, so it fails every mask. */
  predicate Holds(c: Criterion, r: Row) {
    match c
    case InMonth(m) => r.date.Some? && MonthOf(r.date.value) == m
    case PartnerIs(p) => r.partner == Some(p)
    case BankIs(b) => r.bank == Some(b)
    case StatusIn(ss) => r.status.Some? && r.status.value in ss
    case HasDate => r.date.Some?
    case HasText(col) => Text(r, col).Some?
  }

  predicate Satisfies(r: Row, cs: seq<Criterion>) {
    forall c :: c in cs ==> Holds(c, r)
  }

  /** `df[mask]` for the conjunction of the masks `cs`. */
  function Where(rows: seq<Row>, cs: seq<Criterion>): (kept: seq<Row>)
    ensures |kept| <= |rows|
    ensures forall r :: r in kept <==> r in rows && Satisfies(r, cs)
  {
    if rows == [] then []
    else
      var rest := Where(rows[1..], cs);
      assert forall r :: r in rows <==> r == rows[0] || r in rows[1..];
      if Satisfies(rows[0], cs) then [rows[0]] + rest else rest
  }

  function Shift(ps: seq<int>): (qs: seq<int>)
    ensures |qs| == |ps| && forall i :: 0 <= i < |ps| ==> qs[i] == ps[i] + 1
  {
    seq(|ps|, i requires 0 <= i < |ps| => ps[i] + 1)
  }

  /** The indices of the rows that satisfy `cs`, in ascending order. */
  function Positions(rows: seq<Row>, cs: seq<Criterion>): seq<int> {
    if rows == [] then []
    else (if Satisfies(rows[0], cs) then [0] else []) + Shift(Positions(rows[1..], cs))
  }

  /** `kept` is `rows` read at the indices `ps`. */
  predicate Picks(rows: seq<Row>, ps: seq<int>, kept: seq<Row>) {
    |ps| == |kept| && forall i :: 0 <= i < |ps| ==> 0 <= ps[i] < |rows| && kept[i] == rows[ps[i]]
  }

  lemma PicksShift(rows: seq<Row>, ps: seq<int>, kept: seq<Row>)
    requires rows != [] && Picks(rows[1..], ps, kept)
    ensures Picks(rows, Shift(ps), kept)
  {
    forall i | 0 <= i < |ps| ensures 0 <= Shift(ps)[i] < |rows| && kept[i] == rows[Shift(ps)[i]] {
      assert kept[i] == rows[1..][ps[i]];
    }
  }

  lemma PicksHead(rows: seq<Row>, ps: seq<int>, kept: seq<Row>)
    requires rows != [] && Picks(rows, ps, kept)
    ensures Picks(rows, [0] + ps, [rows[0]] + kept)
  {
    var qs := [0] + ps;
    var ks := [rows[0]] + kept;
    forall i | 0 < i < |qs| ensures 0 <= qs[i] < |rows| && ks[i] == rows[qs[i]] {
      assert qs[i] == ps[i - 1] && ks[i] == kept[i - 1];
    }
  }

  lemma {:induction false} PositionsPickKeptRows(rows: seq<Row>, cs: seq<Criterion>)
    ensures Picks(rows, Positions(rows, cs), Where(rows, cs))
  {
    if rows != [] {
      PositionsPickKeptRows(rows[1..], cs);
      var tail := Positions(rows[1..], cs);
      var kept1 := Where(rows[1..], cs);
      PicksShift(rows, tail, kept1);
      if Satisfies(rows[0], cs) {
        PicksHead(rows, Shift(tail), kept1);
        assert Positions(rows, cs) == [0] + Shift(tail) && Where(rows, cs) == [rows[0]] + kept1;
      } else {
        assert Positions(rows, cs) == Shift(tail) && Where(rows, cs) == kept1;
      }
    }
  }

  lemma {:induction false} PositionsAscend(rows: seq<Row>, cs: seq<Criterion>)
    ensures forall i :: 0 <= i < |Positions(rows, cs)| ==> Positions(rows, cs)[i] >= 0
    ensures forall i, j :: 0 <= i < j < |Positions(rows, cs)| ==> Positions(rows, cs)[i] < Positions(rows, cs)[j]
  {
    if rows != [] {
      PositionsAscend(rows[1..], cs);
      var tail := Positions(rows[1..], cs);
      var head := if Satisfies(rows[0], cs) then [0] else [];
      assert Positions(rows, cs) == head + Shift(tail);
    }
  }

  lemma {:induction false} PositionsExact(rows: seq<Row>, cs: seq<Criterion>)
    ensures forall j :: 0 <= j < |rows| ==> (j in Positions(rows, cs) <==> Satisfies(rows[j], cs))
  {
    if rows != [] {
      PositionsExact(rows[1..], cs);
      PositionsAscend(rows[1..], cs);
      var tail := Positions(rows[1..], cs);
      var sh := Shift(tail);
      var head := if Satisfies(rows[0], cs) then [0] else [];
      var ps := Positions(rows, cs);
      assert ps == head + sh;
      assert 0 !in sh;
      forall j | 0 < j < |rows| ensures j in ps <==> Satisfies(rows[j], cs) {
        assert rows[j] == rows[1..][j - 1];
        if j - 1 in tail {
          var k :| 0 <= k < |tail| && tail[k] == j - 1;
          assert sh[k] == j;
        }
        if j in sh {
          var k :| 0 <= k < |sh| && sh[k] == j;
          assert tail[k] == j - 1;
        }
      }
    }
  }

  /** `Where` keeps exactly the rows that satisfy the masks, in their
      original order: the kept rows are the input rows at a strictly
      increasing sequence of indices, and an index is among them if and
      only if its row satisfies every mask. */
  lemma WhereIsOrderedSelection(rows: seq<Row>, cs: seq<Criterion>)
    ensures var ps := Positions(rows, cs);
      && |ps| == |Where(rows, cs)|
      && (forall i :: 0 <= i < |ps| ==> 0 <= ps[i] < |rows| && Where(rows, cs)[i] == rows[ps[i]])
      && (forall i, j :: 0 <= i < j < |ps| ==> ps[i] < ps[j])
      && (forall j :: 0 <= j < |rows| ==> (j in ps <==> Satisfies(rows[j], cs)))
  {
    PositionsPickKeptRows(rows, cs);
    PositionsAscend(rows, cs);
    PositionsExact(rows, cs);
  }

  /** Narrowing twice is narrowing once by both sets of masks. */
  lemma {:induction false} WhereWhere(rows: seq<Row>, a: seq<Criterion>, b: seq<Criterion>)
    ensures Where(Where(rows, a), b) == Where(rows, a + b)
  {
    if rows != [] {
      WhereWhere(rows[1..], a, b);
      var r := rows[0];
      assert Satisfies(r, a + b) <==> Satisfies(r, a) && Satisfies(r, b);
      if Satisfies(r, a) {
        assert ([r] + Where(rows[1..], a))[1..] == Where(rows[1..], a);
      }
    }
  }

  /** Masks applied in any order or with repetitions give the same rows. */
  lemma {:induction false} WhereSameMasks(rows: seq<Row>, a: seq<Criterion>, b: seq<Criterion>)
    requires forall c :: c in a <==> c in b
    ensures Where(rows, a) == Where(rows, b)
  {
    if rows != [] {
      WhereSameMasks(rows[1..], a, b);
      assert Satisfies(rows[0], a) <==> Satisfies(rows[0], b);
    }
  }

  /** Two narrowing steps commute. */
  lemma WhereCommutes(rows: seq<Row>, a: seq<Criterion>, b: seq<Criterion>)
    ensures Where(Where(rows, a), b) == Where(Where(rows, b), a)
  {
    WhereWhere(rows, a, b);
    WhereWhere(rows, b, a);
    WhereSameMasks(rows, a + b, b + a);
  }

  /** Re-applying a mask to its own result changes nothing. */
  lemma WhereIdempotent(rows: seq<Row>, a: seq<Criterion>)
    ensures Where(Where(rows, a), a) == Where(rows, a)
  {
    WhereWhere(rows, a, a);
    WhereSameMasks(rows, a + a, a);
  }

  /** The values the sidebar widgets hand back: the chosen month, partner
      and bank, and the selected statuses. */
  datatype Selection = Selection(month: Month, partner: string, bank: string, statuses: seq<string>)

  /** The masks lines 63-69 apply, in order: the month always; the partner
      and bank unless "Todos" is chosen; the statuses only when the
      selection is non-empty. */
  function Stages(sel: Selection): seq<Criterion> {
    [InMonth(sel.month)]
    + (if sel.partner != ALL then [PartnerIs(sel.partner)] else [])
    + (if sel.bank != ALL then [BankIs(sel.bank)] else [])
    + (if sel.statuses != [] then [StatusIn(sel.statuses)] else [])
  }

  /** Reference definition of the rows the dashboard shows. */
  predicate Matches(r: Row, sel: Selection) {
    && r.date.Some? && MonthOf(r.date.value) == sel.month
    && (sel.partner == ALL || r.partner == Some(sel.partner))
    && (sel.bank == ALL || r.bank == Some(sel.bank))
    && (sel.statuses == [] || (r.status.Some? && r.status.value in sel.statuses))
  }

  lemma SatisfiesConcat(r: Row, a: seq<Criterion>, b: seq<Criterion>)
    ensures Satisfies(r, a + b) <==> Satisfies(r, a) && Satisfies(r, b)
  {
  }

  lemma StagesAreMatches(sel: Selection)
    ensures forall r :: Satisfies(r, Stages(sel)) <==> Matches(r, sel)
  {
    var m := [InMonth(sel.month)];
    var p := if sel.partner != ALL then [PartnerIs(sel.partner)] else [];
    var b := if sel.bank != ALL then [BankIs(sel.bank)] else [];
    var s := if sel.statuses != [] then [StatusIn(sel.statuses)] else [];
    assert Stages(sel) == m + p + b + s;
    forall r ensures Satisfies(r, Stages(sel)) <==> Matches(r, sel) {
      SatisfiesConcat(r, m + p + b, s);
      SatisfiesConcat(r, m + p, b);
      SatisfiesConcat(r, m, p);
      assert Satisfies(r, m) <==> Holds(InMonth(sel.month), r);
      if sel.partner != ALL {
        assert PartnerIs(sel.partner) in p;
      }
      assert Satisfies(r, p) <==> (sel.partner == ALL || r.partner == Some(sel.partner));
      if sel.bank != ALL {
        assert BankIs(sel.bank) in b;
      }
      assert Satisfies(r, b) <==> (sel.bank == ALL || r.bank == Some(sel.bank));
      assert Satisfies(r, s) <==> (sel.statuses == [] || Holds(StatusIn(sel.statuses), r));
    }
  }

  /** `df_filtrado` after line 69. */
  function Filtered(rows: seq<Row>, sel: Selection): (kept: seq<Row>)
    ensures |kept| <= |rows|
    ensures forall r :: r in kept <==> r in rows && Matches(r, sel)
    ensures forall r :: r in kept ==> r.date.Some? && MonthOf(r.date.value) == sel.month
  {
    StagesAreMatches(sel);
    Where(rows, Stages(sel))
  }

  /** The shown rows are the loaded rows at a strictly increasing sequence of
      indices, and an index is among them exactly when its row matches the
      selection: the filters keep order and repetitions. */
  lemma FilteredIsOrderedSelection(rows: seq<Row>, sel: Selection)
    ensures var ps := Positions(rows, Stages(sel));
      && |ps| == |Filtered(rows, sel)|
      && (forall i :: 0 <= i < |ps| ==> 0 <= ps[i] < |rows| && Filtered(rows, sel)[i] == rows[ps[i]])
      && (forall i, j :: 0 <= i < j < |ps| ==> ps[i] < ps[j])
      && (forall j :: 0 <= j < |rows| ==> (j in ps <==> Matches(rows[j], sel)))
  {
    WhereIsOrderedSelection(rows, Stages(sel));
    StagesAreMatches(sel);
  }

  /** Lines 63-69 as written: `df_filtrado` is reassigned by one mask at a
      time. The sequence of steps yields the single-pass result. */
  method ApplyFilters(rows: seq<Row>, sel: Selection) returns (df: seq<Row>)
    ensures df == Filtered(rows, sel)
    ensures forall r :: r in df <==> r in rows && Matches(r, sel)
  {
    ghost var applied := [InMonth(sel.month)];
    df := Where(rows, [InMonth(sel.month)]);
    if sel.partner != ALL {
      WhereWhere(rows, applied, [PartnerIs(sel.partner)]);
      df := Where(df, [PartnerIs(sel.partner)]);
      applied := applied + [PartnerIs(sel.partner)];
    }
    if sel.bank != ALL {
      WhereWhere(rows, applied, [BankIs(sel.bank)]);
      df := Where(df, [BankIs(sel.bank)]);
      applied := applied + [BankIs(sel.bank)];
    }
    if sel.statuses != [] {
      WhereWhere(rows, applied, [StatusIn(sel.statuses)]);
      df := Where(df, [StatusIn(sel.statuses)]);
      applied := applied + [StatusIn(sel.statuses)];
    }
    assert applied == Stages(sel);
  }

  /** Applying the same sidebar choices to the filtered rows changes nothing. */
  lemma FilteredIdempotent(rows: seq<Row>, sel: Selection)
    ensures Filtered(Filtered(rows, sel), sel) == Filtered(rows, sel)
  {
    WhereIdempotent(rows, Stages(sel));
  }

  /** Choosing a partner other than "Todos" narrows the "Todos" result to the
      rows whose partner equals the choice (rows with no partner drop out). */
  lemma PartnerChoiceNarrowsTodos(rows: seq<Row>, sel: Selection, p: string)
    requires p != ALL
    ensures Filtered(rows, sel.(partner := p)) == Where(Filtered(rows, sel.(partner := ALL)), [PartnerIs(p)])
  {
    var all := sel.(partner := ALL);
    WhereWhere(rows, Stages(all), [PartnerIs(p)]);
    WhereSameMasks(rows, Stages(sel.(partner := p)), Stages(all) + [PartnerIs(p)]);
  }

  /** Choosing a bank other than "Todos" narrows the "Todos" result to the
      rows whose bank equals the choice (rows with no bank drop out). */
  lemma BankChoiceNarrowsTodos(rows: seq<Row>, sel: Selection, b: string)
    requires b != ALL
    ensures Filtered(rows, sel.(bank := b)) == Where(Filtered(rows, sel.(bank := ALL)), [BankIs(b)])
  {
    var all := sel.(bank := ALL);
    WhereWhere(rows, Stages(all), [BankIs(b)]);
    WhereSameMasks(rows, Stages(sel.(bank := b)), Stages(all) + [BankIs(b)]);
  }

  /** A non-empty status selection narrows the empty-selection result to the
      rows whose status is selected; the empty selection applies no status
      mask at all. */
  lemma StatusSelectionNarrowsEmpty(rows: seq<Row>, sel: Selection, ss: seq<string>)
    requires ss != []
    ensures Filtered(rows, sel.(statuses := ss)) == Where(Filtered(rows, sel.(statuses := [])), [StatusIn(ss)])
    ensures Stages(sel.(statuses := ss)) == Stages(sel.(statuses := [])) + [StatusIn(ss)]
  {
    var none := sel.(statuses := []);
    var some := sel.(statuses := ss);
    WhereWhere(rows, Stages(none), [StatusIn(ss)]);
    assert Stages(some) == Stages(none) + [StatusIn(ss)];
  }

  /** The "Todos" choices and the empty status selection disable their
      predicates: rows that differ only in that column are kept alike. */
  lemma DisabledPredicatesIgnoreColumn(r: Row, sel: Selection, p: string, b: string, s: string)
    ensures sel.partner == ALL ==> (Matches(r, sel) <==> Matches(r.(partner := Some(p)), sel))
    ensures sel.partner == ALL ==> (Matches(r, sel) <==> Matches(r.(partner := None), sel))
    ensures sel.bank == ALL ==> (Matches(r, sel) <==> Matches(r.(bank := Some(b)), sel))
    ensures sel.bank == ALL ==> (Matches(r, sel) <==> Matches(r.(bank := None), sel))
    ensures sel.statuses == [] ==> (Matches(r, sel) <==> Matches(r.(status := Some(s)), sel))
    ensures sel.statuses == [] ==> (Matches(r, sel) <==> Matches(r.(status := None), sel))
  {
  }

  /** Line 46: the month buckets offered, distinct and ascending. */
  function MonthOptions(rows: seq<Row>): (ms: seq<Month>)
    ensures StrictlySorted(ms, MonthLt)
    ensures forall m :: m in ms <==> exists r :: r in rows && r.date.Some? && MonthOf(r.date.value) == m
  {
    MonthLtIsStrictTotalOrder();
    SortedUniqueSorted(Buckets(rows), MonthLt);
    SortedUnique(Buckets(rows), MonthLt)
  }

  /** Lines 54-55 and 60-61: "Todos" followed by the distinct non-null
      values of the column in ascending order. */
  function ChoiceOptions(rows: seq<Row>, c: TextColumn): (opts: seq<string>)
    ensures |opts| >= 1 && opts[0] == ALL
    ensures StrictlySorted(opts[1..], StrLt)
    ensures forall v :: v in opts[1..] <==> exists r :: r in rows && Text(r, c) == Some(v)
  {
    StrLtIsStrictTotalOrder();
    SortedUniqueSorted(NonNull(rows, c), StrLt);
    var opts := [ALL] + SortedUnique(NonNull(rows, c), StrLt);
    assert opts[1..] == SortedUnique(NonNull(rows, c), StrLt);
    opts
  }

  /** Lines 57-58: the statuses offered, distinct and ascending. */
  function StatusOptions(rows: seq<Row>): (opts: seq<string>)
    ensures StrictlySorted(opts, StrLt)
    ensures forall s :: s in opts <==> exists r :: r in rows && r.status == Some(s)
  {
    StrLtIsStrictTotalOrder();
    SortedUniqueSorted(NonNull(rows, TitleStatus), StrLt);
    SortedUnique(NonNull(rows, TitleStatus), StrLt)
  }

  /** Line 58's `default=status.tolist()`: every distinct non-null status once. */
  function DefaultStatuses(rows: seq<Row>): (ss: seq<string>)
    ensures Distinct(ss)
    ensures forall s :: s in ss <==> s in StatusOptions(rows)
  {
    Unique(NonNull(rows, TitleStatus))
  }

  /** What the widgets can hand back: a month that is offered (line 48 gives
      `None` when no date parsed, and line 63 then fails), a partner and a
      bank from their lists, and statuses from the status options. */
  predicate ValidSelection(rows: seq<Row>, sel: Selection) {
    && sel.month in MonthOptions(rows)
    && sel.partner in ChoiceOptions(rows, PartnerName)
    && sel.bank in ChoiceOptions(rows, BankName)
    && forall s :: s in sel.statuses ==> s in StatusOptions(rows)
  }

  /** Under the default status selection a row passes the status stage
      exactly when its status is non-null, unless no row has a status, in
      which case the selection is empty and nothing is dropped. */
  lemma DefaultStatusSelection(rows: seq<Row>, sel: Selection)
    requires sel.statuses == DefaultStatuses(rows)
    ensures sel.statuses == [] <==> forall r :: r in rows ==> r.status == None
    ensures forall r :: r in Filtered(rows, sel) <==>
      r in Filtered(rows, sel.(statuses := [])) && (sel.statuses != [] ==> r.status.Some?)
  {
    if r :| r in rows && r.status.Some? {
      assert r.status.value in StatusOptions(rows);
      assert r.status.value in sel.statuses;
    }
    if sel.statuses != [] {
      var s := sel.statuses[0];
      assert s in StatusOptions(rows);
    }
  }
}
