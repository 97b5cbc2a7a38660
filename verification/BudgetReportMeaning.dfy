/**
 What a budget report shows: which rows, which month's budget and which cost centre's ledger lines stand in
 each, and what its two grand totals add up to, for scoped and unscoped lines alike.
 */
module BudgetReportMeaning {
  import opened Common
  import opened Ledger
  import opened BudgetVariance

  // ------------------------------------------------------------------
  // Rows
  // ------------------------------------------------------------------

  /** For an ordered window, a month is reported exactly when some instant of it lies in the window. */
  lemma MeetsIff(cal: Calendar, w: Window, month: int)
    requires 1 <= month <= 12 && w.from <= w.to
    ensures Meets(cal, w, month) <==> exists t :: InMonth(cal, month, t) && w.from <= t <= w.to
  {
    var latest := if cal[month] - 1 < w.to then cal[month] - 1 else w.to;
    if Meets(cal, w, month) {
      assert InMonth(cal, month, latest) && w.from <= latest <= w.to;
    }
  }

  /** The cost centre a line is scoped to: its own, else the budget's. */
  function CenterFor(s: Scope, line: BudgetLine): string {
    if line.costCenter != "" then line.costCenter else s.headerCenter
  }

  /** A row: the month's budget, the actual in the account's sign, their difference and its two flags. */
  lemma RowMeans(s: Scope, line: BudgetLine, month: int, raw: real)
    requires 1 <= month <= 12
    ensures var r := RowOf(s, line, month, raw);
            && r.account == line.account && r.month == month && r.costCenter == CenterFor(s, line)
            && r.accountType == (if line.account in s.types then s.types[line.account] else Unknown)
            && r.budgeted == line.months[month - 1]
            && r.actual == (if r.accountType in {Revenue, Liability, Equity} then -raw else raw)
            && r.variance == r.actual - r.budgeted
            && (r.favourable <==> r.variance == 0.0 || (r.variance < 0.0 <==> r.accountType == Expense))
            && (r.unplanned <==> r.budgeted == 0.0 && r.actual != 0.0)
  {
  }

  /** The row of a line for a month stands where a table of actuals says. */
  ghost predicate IsRowFor(s: Scope, actual: Key -> real, line: BudgetLine, month: int, r: Row) {
    && 1 <= month <= 12 && s.cal[month - 1] <= s.window.to && s.window.from < s.cal[month]
    && var center := CenterFor(s, line);
    r == RowOf(s, line, month, actual(Key(line.account, if center == "" then "*" else center, month)))
  }

  lemma {:induction false} LineRowsIff(s: Scope, actual: Key -> real, line: BudgetLine, n: nat, r: Row)
    requires n <= 12
    ensures r in LineRows(s, actual, line, n) <==> exists m :: m <= n && IsRowFor(s, actual, line, m, r)
  {
    if n > 0 {
      LineRowsIff(s, actual, line, n - 1, r);
      assert Meets(s.cal, s.window, n) && r == RowOf(s, line, n, actual(LookupKey(s, line, n))) <==>
             IsRowFor(s, actual, line, n, r);
    }
  }

  /** A report has a row exactly for each line and each month of it that meets the window. */
  lemma {:induction false} ReportRowsIff(s: Scope, actual: Key -> real, lines: seq<BudgetLine>, k: nat, r: Row)
    requires k <= |lines|
    ensures r in ReportRows(s, actual, lines, k) <==> exists i, m :: 0 <= i < k && IsRowFor(s, actual, lines[i], m, r)
  {
    if k > 0 {
      ReportRowsIff(s, actual, lines, k - 1, r);
      LineRowsIff(s, actual, lines[k - 1], |lines[k - 1].months|, r);
      if i, m :| 0 <= i < k && IsRowFor(s, actual, lines[i], m, r) {
        assert i == k - 1 ==> m <= 12;
      }
    }
  }

  // ------------------------------------------------------------------
  // Total budgeted
  // ------------------------------------------------------------------

  /** The budget of one line for those of its first `n` months that meet the window. */
  function PlannedOf(s: Scope, line: BudgetLine, n: nat): real
    requires n <= 12
  {
    if n == 0 then 0.0
    else
      PlannedOf(s, line, n - 1)
      + if s.cal[n - 1] <= s.window.to && s.window.from < s.cal[n] then line.months[n - 1] else 0.0
  }

  function Planned(s: Scope, lines: seq<BudgetLine>, k: nat): real
    requires k <= |lines|
  {
    if k == 0 then 0.0 else Planned(s, lines, k - 1) + PlannedOf(s, lines[k - 1], 12)
  }

  lemma {:induction false} LineBudgeted(s: Scope, actual: Key -> real, line: BudgetLine, n: nat)
    requires n <= 12
    ensures SumRows(LineRows(s, actual, line, n)).budgeted == PlannedOf(s, line, n)
  {
    if n > 0 {
      LineBudgeted(s, actual, line, n - 1);
      var before := LineRows(s, actual, line, n - 1);
      if Meets(s.cal, s.window, n) {
        PlusOneRow(before, RowOf(s, line, n, actual(LookupKey(s, line, n))));
      } else {
        assert LineRows(s, actual, line, n) == before;
      }
    }
  }

  /** Total budgeted is the budget of all lines over the months that meet the window, whatever the actuals. */
  lemma {:induction false} TotalBudgeted(s: Scope, actual: Key -> real, lines: seq<BudgetLine>, k: nat)
    requires k <= |lines|
    ensures SumRows(ReportRows(s, actual, lines, k)).budgeted == Planned(s, lines, k)
  {
    if k > 0 {
      TotalBudgeted(s, actual, lines, k - 1);
      LineBudgeted(s, actual, lines[k - 1], |lines[k - 1].months|);
      SumRowsConcat(ReportRows(s, actual, lines, k - 1),
                    LineRows(s, actual, lines[k - 1], |lines[k - 1].months|));
    }
  }

  // ------------------------------------------------------------------
  // Total actual
  // ------------------------------------------------------------------

  /** Posted inside the window and the fiscal year. */
  predicate Posted(s: Scope, l: JournalLine) {
    s.window.from <= l.postedAt <= s.window.to && s.cal[0] <= l.postedAt < s.cal[12]
  }

  /** The budget line is about this journal line: its account and, if it is scoped, its cost centre. */
  predicate About(s: Scope, line: BudgetLine, l: JournalLine) {
    && l.account == line.account
    && (CenterFor(s, line) == "" || CenterFor(s, line) == "*" || l.costCenter == Some(CenterFor(s, line)))
  }

  /** What a line reads for one month is what the ledger posted for it in that month. */
  lemma MonthIsOwnLedger(journal: seq<JournalLine>, s: Scope, lines: seq<BudgetLine>, line: BudgetLine, n: nat)
    requires 1 <= n <= 12 && line.account in AccountsOf(lines)
    ensures Actual(journal, QueryOf(s, lines), LookupKey(s, line, n))
         == SumWhere(journal, l => Posted(s, l) && About(s, line, l) && InMonth(s.cal, n, l.postedAt))
  {
    var q, key := QueryOf(s, lines), LookupKey(s, line, n);
    var own := l => Posted(s, l) && About(s, line, l) && InMonth(s.cal, n, l.postedAt);
    if key.costCenter == WILDCARD {
      SumAgree(journal, l => InAccountMonth(q, l, key.account, key.month), own);
    } else {
      SumAgree(journal, l => Belongs(q, l, key), own);
    }
  }

  ghost function OwnUpTo(journal: seq<JournalLine>, s: Scope, line: BudgetLine, n: nat): real
    requires n <= 12
  {
    SumWhere(journal, l => Posted(s, l) && About(s, line, l) && l.postedAt < s.cal[n])
  }

  lemma OwnUpToStep(journal: seq<JournalLine>, s: Scope, line: BudgetLine, n: nat)
    requires 1 <= n <= 12
    ensures OwnUpTo(journal, s, line, n) == OwnUpTo(journal, s, line, n - 1)
              + SumWhere(journal, l => Posted(s, l) && About(s, line, l) && InMonth(s.cal, n, l.postedAt))
  {
    SumSplit(journal, l => Posted(s, l) && About(s, line, l) && l.postedAt < s.cal[n - 1],
             l => Posted(s, l) && About(s, line, l) && InMonth(s.cal, n, l.postedAt),
             l => Posted(s, l) && About(s, line, l) && l.postedAt < s.cal[n]);
  }

  lemma {:induction false} LineActualUpTo(journal: seq<JournalLine>, s: Scope, lines: seq<BudgetLine>,
                                          line: BudgetLine, n: nat)
    requires n <= 12 && line.account in AccountsOf(lines)
    ensures LineTotals(journal, s, lines, line, n).actual
         == Signed(TypeOf(s, line.account), OwnUpTo(journal, s, line, n))
  {
    if n == 0 {
      SumNone(journal, l => Posted(s, l) && About(s, line, l) && l.postedAt < s.cal[0]);
    } else {
      LineActualUpTo(journal, s, lines, line, n - 1);
      OwnUpToStep(journal, s, line, n);
      MonthIsOwnLedger(journal, s, lines, line, n);
      if !Meets(s.cal, s.window, n) {
        SumNone(journal, l => Posted(s, l) && About(s, line, l) && InMonth(s.cal, n, l.postedAt));
      }
    }
  }

  /** The journal lines that satisfy `p`, each in the natural sign of its account. */
  function NaturalWhere(journal: seq<JournalLine>, s: Scope, p: JournalLine -> bool): real {
    if journal == [] then 0.0
    else
      var last := journal[|journal| - 1];
      NaturalWhere(journal[..|journal| - 1], s, p)
      + if p(last) then NaturalAmount(TypeOf(s, last.account), last) else 0.0
  }

  lemma {:induction false} NaturalOfAccount(journal: seq<JournalLine>, s: Scope, p: JournalLine -> bool, a: string)
    requires forall l :: l in journal && p(l) ==> l.account == a
    ensures NaturalWhere(journal, s, p) == Signed(TypeOf(s, a), SumWhere(journal, p))
  {
    if journal != [] {
      assert journal[|journal| - 1] in journal;
      NaturalOfAccount(journal[..|journal| - 1], s, p, a);
    }
  }

  lemma {:induction false} NaturalSplit(journal: seq<JournalLine>, s: Scope, p: JournalLine -> bool,
                                        q: JournalLine -> bool, r: JournalLine -> bool)
    requires forall l :: l in journal ==> !(p(l) && q(l)) && (r(l) <==> p(l) || q(l))
    ensures NaturalWhere(journal, s, r) == NaturalWhere(journal, s, p) + NaturalWhere(journal, s, q)
  {
    if journal != [] {
      assert journal[|journal| - 1] in journal;
      NaturalSplit(journal[..|journal| - 1], s, p, q, r);
    }
  }

  lemma {:induction false} NaturalNone(journal: seq<JournalLine>, s: Scope, p: JournalLine -> bool)
    requires forall l :: l in journal ==> !p(l)
    ensures NaturalWhere(journal, s, p) == 0.0
  {
    if journal != [] {
      assert journal[|journal| - 1] in journal;
      NaturalNone(journal[..|journal| - 1], s, p);
    }
  }

  /** The ledger's own total for one budget line. */
  function OwnLedger(journal: seq<JournalLine>, s: Scope, line: BudgetLine): real {
    NaturalWhere(journal, s, l => Posted(s, l) && About(s, line, l))
  }

  /** A line's total actual is the ledger of its own account and cost centre, in the account's sign. */
  lemma LineActualIsOwnLedger(journal: seq<JournalLine>, s: Scope, lines: seq<BudgetLine>, line: BudgetLine)
    requires line.account in AccountsOf(lines)
    ensures LineTotals(journal, s, lines, line, 12).actual == OwnLedger(journal, s, line)
  {
    LineActualUpTo(journal, s, lines, line, 12);
    SumAgree(journal, l => Posted(s, l) && About(s, line, l) && l.postedAt < s.cal[12],
             l => Posted(s, l) && About(s, line, l));
    NaturalOfAccount(journal, s, l => Posted(s, l) && About(s, line, l), line.account);
  }

  function OwnLedgers(journal: seq<JournalLine>, s: Scope, lines: seq<BudgetLine>, k: nat): real
    requires k <= |lines|
  {
    if k == 0 then 0.0 else OwnLedgers(journal, s, lines, k - 1) + OwnLedger(journal, s, lines[k - 1])
  }

  lemma {:induction false} PrefixActual(journal: seq<JournalLine>, s: Scope, lines: seq<BudgetLine>, k: nat)
    requires k <= |lines|
    ensures PrefixTotals(journal, s, lines, k).actual == OwnLedgers(journal, s, lines, k)
  {
    if k > 0 {
      PrefixActual(journal, s, lines, k - 1);
      assert lines[k - 1].account in AccountsOf(lines);
      LineActualIsOwnLedger(journal, s, lines, lines[k - 1]);
    }
  }

  /** Total actual is what the ledger holds for each line, line by line, however the lines are scoped. */
  lemma TotalActualByLine(journal: seq<JournalLine>, s: Scope, lines: seq<BudgetLine>)
    ensures LedgerTotals(journal, s, lines).actual == OwnLedgers(journal, s, lines, |lines|)
  {
    LedgerTotalsAreFolds(journal, s, lines);
    PrefixActual(journal, s, lines, |lines|);
  }

  /** Lines about different accounts, or about different cost centres of one account. */
  predicate Apart(s: Scope, a: BudgetLine, b: BudgetLine) {
    || a.account != b.account
    || (CenterFor(s, a) !in {"", "*"} && CenterFor(s, b) !in {"", "*"} && CenterFor(s, a) != CenterFor(s, b))
  }

  ghost predicate AllApart(s: Scope, lines: seq<BudgetLine>) {
    forall i, j :: 0 <= i < j < |lines| ==> Apart(s, lines[i], lines[j])
  }

  /** Some of the first `k` budget lines is about this journal line. */
  ghost predicate Budgeted(s: Scope, lines: seq<BudgetLine>, k: nat, l: JournalLine)
    requires k <= |lines|
  {
    exists i :: 0 <= i < k && About(s, lines[i], l)
  }

  lemma {:induction false} EachLineOnce(journal: seq<JournalLine>, s: Scope, lines: seq<BudgetLine>, k: nat)
    requires k <= |lines| && AllApart(s, lines)
    ensures OwnLedgers(journal, s, lines, k) == NaturalWhere(journal, s, l => Posted(s, l) && Budgeted(s, lines, k, l))
  {
    if k == 0 {
      NaturalNone(journal, s, l => Posted(s, l) && Budgeted(s, lines, k, l));
    } else {
      EachLineOnce(journal, s, lines, k - 1);
      var front := l => Posted(s, l) && Budgeted(s, lines, k - 1, l);
      var here := l => Posted(s, l) && About(s, lines[k - 1], l);
      var all := l => Posted(s, l) && Budgeted(s, lines, k, l);
      NaturalSplit(journal, s, front, here, all);
    }
  }

  /**
   With lines that are apart, every journal line of a budgeted account and cost centre posted in the window
   is counted exactly once, and no other: the report of its own grouped query shows it so.
   */
  lemma ReportedActualIsBudgetedLedger(journal: seq<JournalLine>, s: Scope, lines: seq<BudgetLine>,
                                       groups: seq<Group>, out: map<Key, real>)
    requires IsGrouping(journal, QueryOf(s, lines), groups) && NoSentinel(journal) && TableOf(out, groups)
    ensures ReportTotals(s, lines, out).actual == OwnLedgers(journal, s, lines, |lines|)
    ensures AllApart(s, lines) ==>
              ReportTotals(s, lines, out).actual
              == NaturalWhere(journal, s, l => Posted(s, l) && Budgeted(s, lines, |lines|, l))
  {
    ReportShowsLedger(journal, s, lines, groups, out);
    TotalActualByLine(journal, s, lines);
    if AllApart(s, lines) {
      EachLineOnce(journal, s, lines, |lines|);
    }
  }
}
