/**
 Budget against actuals: one row per budget line and month that meets the window, and five running totals.
 Amounts are exact; the percentage column is not part of this model.
 */
module BudgetVariance {
  import opened Common
  import opened Ledger

  type TwelveMonths = s: seq<real> | |s| == 12 witness seq(12, _ => 0.0)

  datatype BudgetLine = BudgetLine(account: string, costCenter: string, months: TwelveMonths)

  datatype AccountType = Revenue | Expense | Asset | Liability | Equity | Unknown

  datatype Row = Row(
    account: string, accountType: AccountType, costCenter: string, month: int,
    budgeted: real, actual: real, variance: real, favourable: bool, unplanned: bool)

  datatype Totals = Totals(budgeted: real, actual: real, variance: real, favourable: real, unfavourable: real)

  const ZERO_TOTALS := Totals(0.0, 0.0, 0.0, 0.0, 0.0)

  predicate IsCreditNormal(t: AccountType) { t.Revenue? || t.Liability? || t.Equity? }

  predicate IsFavourable(t: AccountType, variance: real) {
    if t.Expense? then variance <= 0.0 else variance >= 0.0
  }

  function Abs(x: real): real { if x < 0.0 then -x else x }

  function Signed(t: AccountType, x: real): real { if IsCreditNormal(t) then -x else x }

  /** The month is not entirely outside the window. */
  predicate Meets(cal: Calendar, w: Window, month: int) {
    1 <= month <= 12 && !(cal[month] - 1 < w.from) && !(cal[month - 1] > w.to)
  }

  // ------------------------------------------------------------------
  // The report
  // ------------------------------------------------------------------

  /** Everything a report reads besides its lines. */
  datatype Scope = Scope(cal: Calendar, window: Window, headerCenter: string, types: map<string, AccountType>)

  function TypeOf(s: Scope, account: string): AccountType {
    if account in s.types then s.types[account] else Unknown
  }

  function Label(s: Scope, line: BudgetLine): string {
    if line.costCenter == "" then s.headerCenter else line.costCenter
  }

  /** The key of the actuals a line reads for a month. */
  function LookupKey(s: Scope, line: BudgetLine, month: int): Key {
    Key(line.account, if Label(s, line) == "" then WILDCARD else Label(s, line), month)
  }

  function RowOf(s: Scope, line: BudgetLine, month: int, raw: real): Row
    requires 1 <= month <= 12
  {
    var t, planned := TypeOf(s, line.account), line.months[month - 1];
    var actual := Signed(t, raw);
    Row(line.account, t, Label(s, line), month, planned, actual, actual - planned,
        IsFavourable(t, actual - planned), planned == 0.0 && actual != 0.0)
  }

  function Plus(a: Totals, b: Totals): Totals {
    Totals(a.budgeted + b.budgeted, a.actual + b.actual, a.variance + b.variance,
           a.favourable + b.favourable, a.unfavourable + b.unfavourable)
  }

  function TotalsOf(r: Row): Totals {
    Totals(r.budgeted, r.actual, r.variance,
           if r.favourable then Abs(r.variance) else 0.0,
           if r.favourable then 0.0 else Abs(r.variance))
  }

  function SumRows(rows: seq<Row>): Totals {
    if rows == [] then ZERO_TOTALS else Plus(SumRows(rows[..|rows| - 1]), TotalsOf(rows[|rows| - 1]))
  }

  lemma {:induction false} SumRowsConcat(a: seq<Row>, b: seq<Row>)
    ensures SumRows(a + b) == Plus(SumRows(a), SumRows(b))
  {
    if b == [] {
      assert a + b == a;
    } else {
      var front, last := b[..|b| - 1], b[|b| - 1];
      assert (a + b)[..|a + b| - 1] == a + front;
      SumRowsConcat(a, front);
    }
  }

  /** The rows of one line for the months up to `n`. */
  function LineRows(s: Scope, actual: Key -> real, line: BudgetLine, n: nat): seq<Row>
    requires n <= 12
  {
    if n == 0 then []
    else
      LineRows(s, actual, line, n - 1)
      + if Meets(s.cal, s.window, n) then [RowOf(s, line, n, actual(LookupKey(s, line, n)))] else []
  }

  /** The rows of the first `k` lines. */
  function ReportRows(s: Scope, actual: Key -> real, lines: seq<BudgetLine>, k: nat): seq<Row>
    requires k <= |lines|
  {
    if k == 0 then []
    else ReportRows(s, actual, lines, k - 1) + LineRows(s, actual, lines[k - 1], |lines[k - 1].months|)
  }

  function AccountsOf(lines: seq<BudgetLine>): set<string> {
    set i | 0 <= i < |lines| :: lines[i].account
  }

  function QueryOf(s: Scope, lines: seq<BudgetLine>): Query {
    Query(s.cal, s.window, AccountsOf(lines))
  }

  /** Add one row to the five accumulators. */
  method AddRow(totals: Totals, row: Row) returns (sum: Totals)
    ensures sum == Plus(totals, TotalsOf(row))
  {
    sum := Totals(totals.budgeted + row.budgeted, totals.actual + row.actual, totals.variance + row.variance,
                  totals.favourable, totals.unfavourable);
    if row.favourable {
      sum := sum.(favourable := sum.favourable + Abs(row.variance));
    } else {
      sum := sum.(unfavourable := sum.unfavourable + Abs(row.variance));
    }
  }

  /** The months of one line, appended to the rows so far. */
  method ReportLine(s: Scope, line: BudgetLine, actuals: map<Key, real>, before: seq<Row>, sum: Totals)
    returns (rows: seq<Row>, totals: Totals)
    requires sum == SumRows(before)
    ensures rows == before + LineRows(s, key => Lookup(actuals, key), line, |line.months|) && totals == SumRows(rows)
  {
    rows, totals := before, sum;
    ghost var read := key => Lookup(actuals, key);
    var m := 0;
    while m < |line.months|
      invariant 0 <= m <= |line.months|
      invariant rows == before + LineRows(s, read, line, m) && totals == SumRows(rows)
    {
      m := m + 1;
      if Meets(s.cal, s.window, m) {
        var row := RowOf(s, line, m, Lookup(actuals, LookupKey(s, line, m)));
        PlusOneRow(rows, row);
        rows := rows + [row];
        totals := AddRow(totals, row);
      }
    }
  }

  /** The report from the grouped actuals: nested loops over lines and months with five accumulators. */
  method BudgetVsActual(s: Scope, lines: seq<BudgetLine>, groups: seq<Group>)
    returns (rows: seq<Row>, totals: Totals, ghost out: map<Key, real>)
    requires forall i, j :: 0 <= i < j < |groups| ==> groups[i].key != groups[j].key
    ensures TableOf(out, groups)
    ensures rows == ReportRows(s, key => Lookup(out, key), lines, |lines|)
    ensures totals == SumRows(rows)
  {
    var actuals := LoadActuals(groups);
    out := actuals;
    rows, totals := [], ZERO_TOTALS;
    ghost var read := key => Lookup(out, key);
    var i := 0;
    while i < |lines|
      invariant 0 <= i <= |lines|
      invariant rows == ReportRows(s, read, lines, i) && totals == SumRows(rows)
    {
      LineRowsAgree(s, key => Lookup(actuals, key), read, lines[i], |lines[i].months|);
      rows, totals := ReportLine(s, lines[i], actuals, rows, totals);
      i := i + 1;
    }
    ReportRowsAgree(s, read, key => Lookup(out, key), lines, |lines|);
  }

  lemma PlusOneRow(rows: seq<Row>, row: Row)
    ensures SumRows(rows + [row]) == Plus(SumRows(rows), TotalsOf(row))
  {
    assert (rows + [row])[..|rows|] == rows;
  }

  // ------------------------------------------------------------------
  // The totals of every report
  // ------------------------------------------------------------------

  /** What every row of a report satisfies. */
  predicate Sound(r: Row) {
    r.variance == r.actual - r.budgeted && (r.favourable <==> IsFavourable(r.accountType, r.variance))
  }

  lemma {:induction false} LineRowsSound(s: Scope, actual: Key -> real, line: BudgetLine, n: nat)
    requires n <= 12
    ensures forall i :: 0 <= i < |LineRows(s, actual, line, n)| ==> Sound(LineRows(s, actual, line, n)[i])
  {
    if n > 0 {
      LineRowsSound(s, actual, line, n - 1);
    }
  }

  lemma {:induction false} ReportRowsSound(s: Scope, actual: Key -> real, lines: seq<BudgetLine>, k: nat)
    requires k <= |lines|
    ensures forall i :: 0 <= i < |ReportRows(s, actual, lines, k)| ==> Sound(ReportRows(s, actual, lines, k)[i])
  {
    if k > 0 {
      ReportRowsSound(s, actual, lines, k - 1);
      LineRowsSound(s, actual, lines[k - 1], |lines[k - 1].months|);
    }
  }

  function OnSide(expense: bool): Row -> bool {
    (r: Row) => (r.accountType.Expense?) == expense
  }

  /** The totals of the rows on one side of the expense divide. */
  function SideTotals(rows: seq<Row>, expense: bool): Totals {
    SumRows(Select(rows, OnSide(expense)))
  }

  lemma SideGrows(front: seq<Row>, last: Row, expense: bool)
    ensures SideTotals(front + [last], expense)
         == if OnSide(expense)(last)
            then Plus(SideTotals(front, expense), TotalsOf(last))
            else SideTotals(front, expense)
  {
    SelectAppend(front, last, OnSide(expense));
    var side := Select(front, OnSide(expense));
    if OnSide(expense)(last) {
      assert (side + [last])[..|side|] == side;
    } else {
      assert side + [] == side;
    }
  }

  /** `all` is `e` and `o` together, and each side's variance is what its buckets say. */
  predicate Reconciles(all: Totals, e: Totals, o: Totals) {
    && all == Plus(e, o)
    && all.variance == all.actual - all.budgeted
    && o.variance == o.favourable - o.unfavourable
    && e.variance == e.unfavourable - e.favourable
  }

  lemma ReconcilesStep(all: Totals, e: Totals, o: Totals, row: Row)
    requires Reconciles(all, e, o) && Sound(row)
    ensures var t := TotalsOf(row);
            if row.accountType.Expense?
            then Reconciles(Plus(all, t), Plus(e, t), o)
            else Reconciles(Plus(all, t), e, Plus(o, t))
  {
  }

  ghost predicate RowsReconcile(rows: seq<Row>) {
    Reconciles(SumRows(rows), SideTotals(rows, true), SideTotals(rows, false))
  }

  lemma OneMoreRow(front: seq<Row>, last: Row)
    requires RowsReconcile(front) && Sound(last)
    ensures RowsReconcile(front + [last])
  {
    ReconcilesStep(SumRows(front), SideTotals(front, true), SideTotals(front, false), last);
    SideGrows(front, last, true);
    SideGrows(front, last, false);
    PlusOneRow(front, last);
  }

  lemma {:induction false} SidesReconcile(rows: seq<Row>)
    requires forall i :: 0 <= i < |rows| ==> Sound(rows[i])
    ensures RowsReconcile(rows)
  {
    if rows != [] {
      var front, last := rows[..|rows| - 1], rows[|rows| - 1];
      assert rows == front + [last];
      SidesReconcile(front);
      assert Sound(last);
      OneMoreRow(front, last);
    } else {
      assert SumRows(rows) == ZERO_TOTALS;
      assert SideTotals(rows, true) == ZERO_TOTALS;
      assert SideTotals(rows, false) == ZERO_TOTALS;
    }
  }

  /**
   Every report: total variance is actual minus budgeted, and also favourable minus unfavourable over
   the rows that are not expenses plus unfavourable minus favourable over those that are.
   */
  lemma TotalsReconcile(s: Scope, actual: Key -> real, lines: seq<BudgetLine>)
    ensures var rows := ReportRows(s, actual, lines, |lines|);
            var all, e, o := SumRows(rows), SideTotals(rows, true), SideTotals(rows, false);
            && all.variance == all.actual - all.budgeted
            && all.variance == (o.favourable - o.unfavourable) + (e.unfavourable - e.favourable)
            && all.favourable == o.favourable + e.favourable
            && all.unfavourable == o.unfavourable + e.unfavourable
  {
    ReportRowsSound(s, actual, lines, |lines|);
    SidesReconcile(ReportRows(s, actual, lines, |lines|));
  }

  // ------------------------------------------------------------------
  // Splitting the window at a month boundary
  // ------------------------------------------------------------------

  /** The totals a report on `journal` shows for a window. */
  function LedgerTotals(journal: seq<JournalLine>, s: Scope, lines: seq<BudgetLine>): Totals {
    SumRows(ReportRows(s, key => Actual(journal, QueryOf(s, lines), key), lines, |lines|))
  }

  lemma {:induction false} LineRowsAgree(s: Scope, f: Key -> real, g: Key -> real, line: BudgetLine, n: nat)
    requires n <= 12 && forall key :: f(key) == g(key)
    ensures LineRows(s, f, line, n) == LineRows(s, g, line, n)
  {
    if n > 0 {
      LineRowsAgree(s, f, g, line, n - 1);
    }
  }

  lemma {:induction false} ReportRowsAgree(s: Scope, f: Key -> real, g: Key -> real, lines: seq<BudgetLine>, k: nat)
    requires k <= |lines| && forall key :: f(key) == g(key)
    ensures ReportRows(s, f, lines, k) == ReportRows(s, g, lines, k)
  {
    if k > 0 {
      ReportRowsAgree(s, f, g, lines, k - 1);
      LineRowsAgree(s, f, g, lines[k - 1], |lines[k - 1].months|);
    }
  }

  /** On a journal free of the sentinel, the report's totals are those of the ledger. */
  lemma ReportShowsLedger(journal: seq<JournalLine>, s: Scope, lines: seq<BudgetLine>, groups: seq<Group>,
                          out: map<Key, real>)
    requires IsGrouping(journal, QueryOf(s, lines), groups) && NoSentinel(journal) && TableOf(out, groups)
    ensures ReportTotals(s, lines, out) == LedgerTotals(journal, s, lines)
  {
    var f := key => Lookup(out, key);
    var g := key => Actual(journal, QueryOf(s, lines), key);
    forall key ensures f(key) == g(key) {
      TableIsExact(journal, QueryOf(s, lines), groups, out, key);
    }
    ReportRowsAgree(s, f, g, lines, |lines|);
  }

  /** Narrowing the window to one that still covers a month leaves that month's actuals alone. */
  lemma ActualInWindow(journal: seq<JournalLine>, q: Query, w: Window, key: Key)
    requires 1 <= key.month <= 12
    requires forall t :: InMonth(q.cal, key.month, t) ==> (q.window.from <= t <= q.window.to <==> w.from <= t <= w.to)
    ensures Actual(journal, q, key) == Actual(journal, q.(window := w), key)
  {
    var q' := q.(window := w);
    SumAgree(journal, l => Belongs(q, l, key), l => Belongs(q', l, key));
    SumAgree(journal, l => InAccountMonth(q, l, key.account, key.month),
             l => InAccountMonth(q', l, key.account, key.month));
  }

  /** A line's row for a month, from the ledger. */
  function RowIn(journal: seq<JournalLine>, s: Scope, lines: seq<BudgetLine>, line: BudgetLine, month: nat): Row
    requires 1 <= month <= 12
  {
    RowOf(s, line, month, Actual(journal, QueryOf(s, lines), LookupKey(s, line, month)))
  }

  lemma Narrowed(journal: seq<JournalLine>, s: Scope, w: Window, lines: seq<BudgetLine>, line: BudgetLine, month: nat)
    requires 1 <= month <= 12
    requires forall t :: InMonth(s.cal, month, t) ==> (s.window.from <= t <= s.window.to <==> w.from <= t <= w.to)
    ensures RowIn(journal, s, lines, line, month) == RowIn(journal, s.(window := w), lines, line, month)
  {
    ActualInWindow(journal, QueryOf(s, lines), w, LookupKey(s, line, month));
    assert QueryOf(s, lines).(window := w) == QueryOf(s.(window := w), lines);
  }

  function MonthTotals(journal: seq<JournalLine>, s: Scope, lines: seq<BudgetLine>, line: BudgetLine, n: int): Totals {
    if 1 <= n <= 12 && Meets(s.cal, s.window, n) then TotalsOf(RowIn(journal, s, lines, line, n)) else ZERO_TOTALS
  }

  /** What a line contributes in a month. */
  type Cells = (BudgetLine, int) -> Totals

  /** One line's contributions in the months up to `n`. */
  function LineSum(f: Cells, line: BudgetLine, n: nat): Totals {
    if n == 0 then ZERO_TOTALS else Plus(LineSum(f, line, n - 1), f(line, n))
  }

  /** All contributions of the first `k` lines. */
  function LinesSum(f: Cells, lines: seq<BudgetLine>, k: nat): Totals
    requires k <= |lines|
  {
    if k == 0 then ZERO_TOTALS else Plus(LinesSum(f, lines, k - 1), LineSum(f, lines[k - 1], |lines[k - 1].months|))
  }

  /** `f` is `g` and `h` together, month by month. */
  ghost predicate AddUp(f: Cells, g: Cells, h: Cells) {
    forall line, m :: 1 <= m <= 12 ==> f(line, m) == Plus(g(line, m), h(line, m))
  }

  lemma {:induction false} LineSumSplits(f: Cells, g: Cells, h: Cells, line: BudgetLine, n: nat)
    requires AddUp(f, g, h) && n <= 12
    ensures LineSum(f, line, n) == Plus(LineSum(g, line, n), LineSum(h, line, n))
  {
    if n > 0 {
      LineSumSplits(f, g, h, line, n - 1);
    }
  }

  lemma {:induction false} LinesSumSplits(f: Cells, g: Cells, h: Cells, lines: seq<BudgetLine>, k: nat)
    requires AddUp(f, g, h) && k <= |lines|
    ensures LinesSum(f, lines, k) == Plus(LinesSum(g, lines, k), LinesSum(h, lines, k))
  {
    if k > 0 {
      LinesSumSplits(f, g, h, lines, k - 1);
      LineSumSplits(f, g, h, lines[k - 1], |lines[k - 1].months|);
    }
  }

  function CellsOf(journal: seq<JournalLine>, s: Scope, lines: seq<BudgetLine>): Cells {
    (line, m) => MonthTotals(journal, s, lines, line, m)
  }

  function LineTotals(journal: seq<JournalLine>, s: Scope, lines: seq<BudgetLine>, line: BudgetLine, n: nat): Totals {
    LineSum(CellsOf(journal, s, lines), line, n)
  }

  function PrefixTotals(journal: seq<JournalLine>, s: Scope, lines: seq<BudgetLine>, k: nat): Totals
    requires k <= |lines|
  {
    LinesSum(CellsOf(journal, s, lines), lines, k)
  }

  lemma {:induction false} LineTotalsAreRows(journal: seq<JournalLine>, s: Scope, lines: seq<BudgetLine>,
                                             line: BudgetLine, f: Key -> real, n: nat)
    requires n <= 12 && forall key :: f(key) == Actual(journal, QueryOf(s, lines), key)
    ensures SumRows(LineRows(s, f, line, n)) == LineTotals(journal, s, lines, line, n)
  {
    if n > 0 {
      LineTotalsAreRows(journal, s, lines, line, f, n - 1);
      if Meets(s.cal, s.window, n) {
        PlusOneRow(LineRows(s, f, line, n - 1), RowIn(journal, s, lines, line, n));
      } else {
        assert LineRows(s, f, line, n) == LineRows(s, f, line, n - 1);
      }
    }
  }

  lemma {:induction false} PrefixTotalsAreRows(journal: seq<JournalLine>, s: Scope, lines: seq<BudgetLine>,
                                               f: Key -> real, k: nat)
    requires k <= |lines| && forall key :: f(key) == Actual(journal, QueryOf(s, lines), key)
    ensures SumRows(ReportRows(s, f, lines, k)) == PrefixTotals(journal, s, lines, k)
  {
    if k > 0 {
      PrefixTotalsAreRows(journal, s, lines, f, k - 1);
      LineTotalsAreRows(journal, s, lines, lines[k - 1], f, |lines[k - 1].months|);
      SumRowsConcat(ReportRows(s, f, lines, k - 1), LineRows(s, f, lines[k - 1], |lines[k - 1].months|));
    }
  }

  /** The two halves of a window cut just before the start of month `b + 1`. */
  function Early(s: Scope, b: nat): Scope requires b <= 12 { s.(window := Window(s.window.from, s.cal[b] - 1)) }
  function Late(s: Scope, b: nat): Scope requires b <= 12 { s.(window := Window(s.cal[b], s.window.to)) }

  predicate Cuts(s: Scope, b: nat) {
    b <= 12 && s.window.from <= s.cal[b] <= s.window.to + 1
  }

  /** A month before the cut is covered by the early half as by the whole, and does not meet the late half. */
  lemma MonthBeforeCut(s: Scope, b: nat, n: nat)
    requires 1 <= n <= b && Cuts(s, b)
    ensures Meets(s.cal, s.window, n) == Meets(s.cal, Early(s, b).window, n) && !Meets(s.cal, Late(s, b).window, n)
    ensures forall t :: InMonth(s.cal, n, t) ==>
              (s.window.from <= t <= s.window.to <==> Early(s, b).window.from <= t <= Early(s, b).window.to)
  {
  }

  lemma MonthAfterCut(s: Scope, b: nat, n: nat)
    requires b < n <= 12 && Cuts(s, b)
    ensures Meets(s.cal, s.window, n) == Meets(s.cal, Late(s, b).window, n) && !Meets(s.cal, Early(s, b).window, n)
    ensures forall t :: InMonth(s.cal, n, t) ==>
              (s.window.from <= t <= s.window.to <==> Late(s, b).window.from <= t <= Late(s, b).window.to)
  {
  }

  lemma MonthSplits(journal: seq<JournalLine>, s: Scope, b: nat, lines: seq<BudgetLine>, line: BudgetLine, n: nat)
    requires 1 <= n <= 12 && Cuts(s, b)
    ensures MonthTotals(journal, s, lines, line, n)
         == Plus(MonthTotals(journal, Early(s, b), lines, line, n), MonthTotals(journal, Late(s, b), lines, line, n))
  {
    if n <= b {
      MonthBeforeCut(s, b, n);
      Narrowed(journal, s, Early(s, b).window, lines, line, n);
    } else {
      MonthAfterCut(s, b, n);
      Narrowed(journal, s, Late(s, b).window, lines, line, n);
    }
  }

  lemma CellsSplit(journal: seq<JournalLine>, s: Scope, b: nat, lines: seq<BudgetLine>)
    requires Cuts(s, b)
    ensures AddUp(CellsOf(journal, s, lines), CellsOf(journal, Early(s, b), lines), CellsOf(journal, Late(s, b), lines))
  {
    var f, g, h := CellsOf(journal, s, lines), CellsOf(journal, Early(s, b), lines),
        CellsOf(journal, Late(s, b), lines);
    forall line, m | 1 <= m <= 12 ensures f(line, m) == Plus(g(line, m), h(line, m)) {
      MonthSplits(journal, s, b, lines, line, m);
    }
  }

  lemma LedgerTotalsAreFolds(journal: seq<JournalLine>, s: Scope, lines: seq<BudgetLine>)
    ensures LedgerTotals(journal, s, lines) == PrefixTotals(journal, s, lines, |lines|)
  {
    PrefixTotalsAreRows(journal, s, lines, key => Actual(journal, QueryOf(s, lines), key), |lines|);
  }

  /** All five totals add up when the window is cut at the start of any month. */
  lemma SplitAtMonthAddsUp(journal: seq<JournalLine>, s: Scope, b: nat, lines: seq<BudgetLine>)
    requires Cuts(s, b)
    ensures LedgerTotals(journal, s, lines)
         == Plus(LedgerTotals(journal, Early(s, b), lines), LedgerTotals(journal, Late(s, b), lines))
  {
    LedgerTotalsAreFolds(journal, s, lines);
    LedgerTotalsAreFolds(journal, Early(s, b), lines);
    LedgerTotalsAreFolds(journal, Late(s, b), lines);
    CellsSplit(journal, s, b, lines);
    LinesSumSplits(CellsOf(journal, s, lines), CellsOf(journal, Early(s, b), lines),
                   CellsOf(journal, Late(s, b), lines), lines, |lines|);
  }

  /** The totals of the report built from a table of actuals. */
  function ReportTotals(s: Scope, lines: seq<BudgetLine>, out: map<Key, real>): Totals {
    SumRows(ReportRows(s, key => Lookup(out, key), lines, |lines|))
  }

  /**
   Three reports, each from its own grouped query: on a journal free of the sentinel, the totals of the
   whole window are the totals of its two halves added up.
   */
  lemma SplitReportsAddUp(journal: seq<JournalLine>, s: Scope, b: nat, lines: seq<BudgetLine>,
                          whole: seq<Group>, early: seq<Group>, late: seq<Group>,
                          out: map<Key, real>, out1: map<Key, real>, out2: map<Key, real>)
    requires Cuts(s, b) && NoSentinel(journal)
    requires IsGrouping(journal, QueryOf(s, lines), whole) && TableOf(out, whole)
    requires IsGrouping(journal, QueryOf(Early(s, b), lines), early) && TableOf(out1, early)
    requires IsGrouping(journal, QueryOf(Late(s, b), lines), late) && TableOf(out2, late)
    ensures ReportTotals(s, lines, out)
         == Plus(ReportTotals(Early(s, b), lines, out1), ReportTotals(Late(s, b), lines, out2))
  {
    ReportShowsLedger(journal, s, lines, whole, out);
    ReportShowsLedger(journal, Early(s, b), lines, early, out1);
    ReportShowsLedger(journal, Late(s, b), lines, late, out2);
    SplitAtMonthAddsUp(journal, s, b, lines);
  }

  // ------------------------------------------------------------------
  // The unscoped report is the ledger
  // ------------------------------------------------------------------

  /** A journal line in the natural sign of its account: credits increase revenue, liabilities and equity. */
  function NaturalAmount(t: AccountType, l: JournalLine): real {
    match t
    case Revenue => l.credit - l.debit
    case Liability => l.credit - l.debit
    case Equity => l.credit - l.debit
    case Expense => l.debit - l.credit
    case Asset => l.debit - l.credit
    case Unknown => l.debit - l.credit
  }

  /** The ledger's own total of some accounts in the window and year, each account in its natural sign. */
  function SignedLedger(journal: seq<JournalLine>, s: Scope, q: Query, accounts: set<string>): real {
    if journal == [] then 0.0
    else
      var last := journal[|journal| - 1];
      SignedLedger(journal[..|journal| - 1], s, q, accounts)
      + if Selected(q, last) && last.account in accounts then NaturalAmount(TypeOf(s, last.account), last) else 0.0
  }

  lemma {:induction false} SignedLedgerGrows(journal: seq<JournalLine>, s: Scope, q: Query, accounts: set<string>,
                                             a: string)
    requires a !in accounts
    ensures SignedLedger(journal, s, q, accounts + {a})
         == SignedLedger(journal, s, q, accounts)
            + Signed(TypeOf(s, a), SumWhere(journal, l => Selected(q, l) && l.account == a))
  {
    if journal != [] {
      SignedLedgerGrows(journal[..|journal| - 1], s, q, accounts, a);
    }
  }

  /** One account's lines before the end of month `n`. */
  ghost function AccountUpTo(journal: seq<JournalLine>, q: Query, a: string, n: nat): real
    requires n <= 12
  {
    SumWhere(journal, l => Selected(q, l) && l.account == a && l.postedAt < q.cal[n])
  }

  lemma AccountUpToStep(journal: seq<JournalLine>, q: Query, a: string, n: nat)
    requires 1 <= n <= 12
    ensures AccountUpTo(journal, q, a, n) == AccountUpTo(journal, q, a, n - 1) + MonthTotal(journal, q, a, n)
  {
    SumSplit(journal, l => Selected(q, l) && l.account == a && l.postedAt < q.cal[n - 1],
             l => InAccountMonth(q, l, a, n), l => Selected(q, l) && l.account == a && l.postedAt < q.cal[n]);
  }

  predicate Unscoped(s: Scope, line: BudgetLine) { Label(s, line) == "" }

  lemma {:induction false} LineActualIsAccount(journal: seq<JournalLine>, s: Scope, lines: seq<BudgetLine>,
                                               line: BudgetLine, n: nat)
    requires n <= 12 && Unscoped(s, line)
    ensures LineTotals(journal, s, lines, line, n).actual
         == Signed(TypeOf(s, line.account), AccountUpTo(journal, QueryOf(s, lines), line.account, n))
  {
    var q, a := QueryOf(s, lines), line.account;
    if n == 0 {
      SumNone(journal, l => Selected(q, l) && l.account == a && l.postedAt < q.cal[0]);
    } else {
      LineActualIsAccount(journal, s, lines, line, n - 1);
      AccountUpToStep(journal, q, a, n);
      if !Meets(s.cal, s.window, n) {
        SumNone(journal, l => InAccountMonth(q, l, a, n));
      }
    }
  }

  ghost predicate OnePerAccount(lines: seq<BudgetLine>) {
    forall i, j :: 0 <= i < j < |lines| ==> lines[i].account != lines[j].account
  }

  lemma {:induction false} PrefixActualIsLedger(journal: seq<JournalLine>, s: Scope, lines: seq<BudgetLine>, k: nat)
    requires k <= |lines| && OnePerAccount(lines) && forall i :: 0 <= i < |lines| ==> Unscoped(s, lines[i])
    ensures PrefixTotals(journal, s, lines, k).actual
         == SignedLedger(journal, s, QueryOf(s, lines), AccountsOf(lines[..k]))
  {
    var q := QueryOf(s, lines);
    if k == 0 {
      assert AccountsOf(lines[..0]) == {};
      NoAccounts(journal, s, q);
    } else {
      PrefixActualIsLedger(journal, s, lines, k - 1);
      LineActualIsAccount(journal, s, lines, lines[k - 1], |lines[k - 1].months|);
      LedgerOfOneMore(journal, s, lines, q, k);
    }
  }

  lemma LedgerOfOneMore(journal: seq<JournalLine>, s: Scope, lines: seq<BudgetLine>, q: Query, k: nat)
    requires 0 < k <= |lines| && OnePerAccount(lines)
    ensures SignedLedger(journal, s, q, AccountsOf(lines[..k]))
         == SignedLedger(journal, s, q, AccountsOf(lines[..k - 1]))
            + Signed(TypeOf(s, lines[k - 1].account), AccountUpTo(journal, q, lines[k - 1].account, 12))
  {
    var a := lines[k - 1].account;
    SumAgree(journal, l => Selected(q, l) && l.account == a && l.postedAt < q.cal[12],
             l => Selected(q, l) && l.account == a);
    SignedLedgerGrows(journal, s, q, AccountsOf(lines[..k - 1]), a);
    OneMoreAccount(lines, k);
  }

  lemma OneMoreAccount(lines: seq<BudgetLine>, k: nat)
    requires 0 < k <= |lines|
    ensures AccountsOf(lines[..k]) == AccountsOf(lines[..k - 1]) + {lines[k - 1].account}
  {
    var all, front := lines[..k], lines[..k - 1];
    forall x | x in AccountsOf(all) ensures x in AccountsOf(front) + {lines[k - 1].account} {
      var i :| 0 <= i < k && all[i].account == x;
      assert i < k - 1 ==> front[i].account == x;
    }
    forall x | x in AccountsOf(front) + {lines[k - 1].account} ensures x in AccountsOf(all) {
      if x in AccountsOf(front) {
        var i :| 0 <= i < k - 1 && front[i].account == x;
        assert all[i].account == x;
      } else {
        assert all[k - 1].account == x;
      }
    }
  }

  lemma {:induction false} NoAccounts(journal: seq<JournalLine>, s: Scope, q: Query)
    ensures SignedLedger(journal, s, q, {}) == 0.0
  {
    if journal != [] {
      NoAccounts(journal[..|journal| - 1], s, q);
    }
  }

  /** With no cost-centre scope and one line per account, total actual is the signed ledger of the planned accounts. */
  lemma TotalActualIsLedger(journal: seq<JournalLine>, s: Scope, lines: seq<BudgetLine>)
    requires s.headerCenter == "" && OnePerAccount(lines) && forall i :: 0 <= i < |lines| ==> lines[i].costCenter == ""
    ensures LedgerTotals(journal, s, lines).actual == SignedLedger(journal, s, QueryOf(s, lines), AccountsOf(lines))
  {
    PrefixTotalsAreRows(journal, s, lines, key => Actual(journal, QueryOf(s, lines), key), |lines|);
    PrefixActualIsLedger(journal, s, lines, |lines|);
    assert lines[..|lines|] == lines;
  }

  /** The same for a report built from its grouped query, on a journal free of the sentinel. */
  lemma ReportedActualIsLedger(journal: seq<JournalLine>, s: Scope, lines: seq<BudgetLine>, groups: seq<Group>,
                               out: map<Key, real>)
    requires IsGrouping(journal, QueryOf(s, lines), groups) && NoSentinel(journal) && TableOf(out, groups)
    requires s.headerCenter == "" && OnePerAccount(lines) && forall i :: 0 <= i < |lines| ==> lines[i].costCenter == ""
    ensures ReportTotals(s, lines, out).actual == SignedLedger(journal, s, QueryOf(s, lines), AccountsOf(lines))
  {
    ReportShowsLedger(journal, s, lines, groups, out);
    TotalActualIsLedger(journal, s, lines);
  }
}
