/**
 Journal lines aggregated per account, cost centre and month of one fiscal year, and the lookup table of
 actuals built from those groups with its wildcard bucket.
 */
module Ledger {
  import opened Common

  datatype JournalLine = JournalLine(account: string, costCenter: Option<string>, postedAt: int, debit: real,
                                     credit: real)

  /** The first instants of the twelve months of the fiscal year and of the month after. */
  type Calendar = c: seq<int> | |c| == 13 && (forall i, j :: 0 <= i < j < 13 ==> c[i] < c[j]) witness seq(13, i => i)

  datatype Window = Window(from: int, to: int)

  /** Which lines the aggregation reads. */
  datatype Query = Query(cal: Calendar, window: Window, accounts: set<string>)

  datatype Key = Key(account: string, costCenter: string, month: int)

  datatype Group = Group(key: Key, sum: real)

  const WILDCARD := "*"

  predicate InMonth(cal: Calendar, month: int, t: int) {
    1 <= month <= 12 && cal[month - 1] <= t < cal[month]
  }

  predicate Selected(q: Query, l: JournalLine) {
    && q.window.from <= l.postedAt <= q.window.to
    && l.account in q.accounts
    && q.cal[0] <= l.postedAt < q.cal[12]
  }

  function CenterOf(l: JournalLine): string {
    if l.costCenter.Some? then l.costCenter.value else ""
  }

  predicate Belongs(q: Query, l: JournalLine, key: Key) {
    Selected(q, l) && l.account == key.account && CenterOf(l) == key.costCenter && InMonth(q.cal, key.month, l.postedAt)
  }

  /** Like `Belongs`, in any cost centre. */
  predicate InAccountMonth(q: Query, l: JournalLine, account: string, month: int) {
    Selected(q, l) && l.account == account && InMonth(q.cal, month, l.postedAt)
  }

  // ------------------------------------------------------------------
  // Sums over the journal
  // ------------------------------------------------------------------

  function SumWhere(journal: seq<JournalLine>, p: JournalLine -> bool): real {
    if journal == [] then 0.0
    else
      var last := journal[|journal| - 1];
      SumWhere(journal[..|journal| - 1], p) + if p(last) then last.debit - last.credit else 0.0
  }

  lemma {:induction false} SumSplit(journal: seq<JournalLine>, p: JournalLine -> bool, q: JournalLine -> bool,
                                    r: JournalLine -> bool)
    requires forall l :: l in journal ==> !(p(l) && q(l)) && (r(l) <==> p(l) || q(l))
    ensures SumWhere(journal, r) == SumWhere(journal, p) + SumWhere(journal, q)
  {
    if journal != [] {
      assert journal[|journal| - 1] in journal;
      SumSplit(journal[..|journal| - 1], p, q, r);
    }
  }

  lemma {:induction false} SumAgree(journal: seq<JournalLine>, p: JournalLine -> bool, q: JournalLine -> bool)
    requires forall l :: l in journal ==> p(l) == q(l)
    ensures SumWhere(journal, p) == SumWhere(journal, q)
  {
    if journal != [] {
      assert journal[|journal| - 1] in journal;
      SumAgree(journal[..|journal| - 1], p, q);
    }
  }

  lemma {:induction false} SumNone(journal: seq<JournalLine>, p: JournalLine -> bool)
    requires forall l :: l in journal ==> !p(l)
    ensures SumWhere(journal, p) == 0.0
  {
    if journal != [] {
      assert journal[|journal| - 1] in journal;
      SumNone(journal[..|journal| - 1], p);
    }
  }

  lemma SumOfOne(l: JournalLine, p: JournalLine -> bool)
    ensures SumWhere([l], p) == if p(l) then l.debit - l.credit else 0.0
  {
    assert [l][..0] == [];
  }

  function KeyTotal(journal: seq<JournalLine>, q: Query, key: Key): real {
    SumWhere(journal, l => Belongs(q, l, key))
  }

  /** The ledger's own total for an account and month, over all cost centres. */
  function MonthTotal(journal: seq<JournalLine>, q: Query, account: string, month: int): real {
    SumWhere(journal, l => InAccountMonth(q, l, account, month))
  }

  // ------------------------------------------------------------------
  // The grouped query
  // ------------------------------------------------------------------

  /** One group per key that occurs, in any order, each with the sum of its lines. */
  ghost predicate IsGrouping(journal: seq<JournalLine>, q: Query, groups: seq<Group>) {
    && (forall i, j :: 0 <= i < j < |groups| ==> groups[i].key != groups[j].key)
    && (forall i :: 0 <= i < |groups| ==> groups[i].sum == KeyTotal(journal, q, groups[i].key))
    && (forall i :: 0 <= i < |groups| ==> Occurs(journal, q, groups[i].key))
    && (forall l :: l in journal && Selected(q, l) ==> Grouped(q, groups, l))
  }

  ghost predicate Occurs(journal: seq<JournalLine>, q: Query, key: Key) {
    exists l :: l in journal && Belongs(q, l, key)
  }

  ghost predicate Grouped(q: Query, groups: seq<Group>, l: JournalLine) {
    exists i :: 0 <= i < |groups| && Belongs(q, l, groups[i].key)
  }

  predicate AtMonth(g: Group, account: string, month: int) {
    g.key.account == account && g.key.month == month
  }

  /** The groups of one account and month added up. */
  function GroupTotal(groups: seq<Group>, account: string, month: int): real {
    if groups == [] then 0.0
    else
      var last := groups[|groups| - 1];
      GroupTotal(groups[..|groups| - 1], account, month) + if AtMonth(last, account, month) then last.sum else 0.0
  }

  /** What the loop leaves in the wildcard bucket, the sentinel being an ordinary key to it. */
  function WildBucket(groups: seq<Group>, account: string, month: int): real {
    if groups == [] then 0.0
    else
      var last, before := groups[|groups| - 1], WildBucket(groups[..|groups| - 1], account, month);
      if !AtMonth(last, account, month) then before
      else if last.key.costCenter == WILDCARD then last.sum + last.sum
      else before + last.sum
  }

  function Lookup(m: map<Key, real>, key: Key): real {
    if key in m then m[key] else 0.0
  }

  ghost predicate HasKey(groups: seq<Group>, key: Key, sum: real) {
    exists i :: 0 <= i < |groups| && groups[i] == Group(key, sum)
  }

  /** Each key but the wildcards holds its own group's sum; the wildcards hold their buckets. */
  ghost predicate TableOf(out: map<Key, real>, groups: seq<Group>) {
    && (forall key: Key :: key.costCenter == WILDCARD ==>
        Lookup(out, key) == WildBucket(groups, key.account, key.month))
    && (forall key: Key :: key.costCenter != WILDCARD && key in out ==> HasKey(groups, key, out[key]))
    && (forall i :: 0 <= i < |groups| ==> groups[i].key in out)
  }

  /** The loop that files each group under its own key and adds it to the wildcard bucket. */
  method LoadActuals(groups: seq<Group>) returns (out: map<Key, real>)
    requires forall i, j :: 0 <= i < j < |groups| ==> groups[i].key != groups[j].key
    ensures TableOf(out, groups)
  {
    out := map[];
    var i := 0;
    while i < |groups|
      invariant 0 <= i <= |groups| && TableOf(out, groups[..i])
    {
      var g := groups[i];
      ghost var was := out;
      out := out[g.key := g.sum];
      var wild := g.key.(costCenter := WILDCARD);
      out := out[wild := Lookup(out, wild) + g.sum];
      Filed(was, out, groups[..i], g);
      assert groups[..i + 1] == groups[..i] + [g];
      i := i + 1;
    }
    assert groups[..i] == groups;
  }

  lemma Filed(was: map<Key, real>, out: map<Key, real>, before: seq<Group>, g: Group)
    requires TableOf(was, before)
    requires var wild := g.key.(costCenter := WILDCARD);
             var filed := was[g.key := g.sum];
             out == filed[wild := Lookup(filed, wild) + g.sum]
    ensures TableOf(out, before + [g])
  {
  }

  // ------------------------------------------------------------------
  // What the buckets hold
  // ------------------------------------------------------------------

  /** A line of this account and month that falls in one of the groups. */
  ghost predicate Counted(q: Query, groups: seq<Group>, account: string, month: int, l: JournalLine) {
    InAccountMonth(q, l, account, month) && Grouped(q, groups, l)
  }

  ghost function CountedTotal(journal: seq<JournalLine>, q: Query, groups: seq<Group>, account: string,
                              month: int): real {
    SumWhere(journal, l => Counted(q, groups, account, month, l))
  }

  lemma CountedStep(journal: seq<JournalLine>, q: Query, groups: seq<Group>, n: nat, account: string, month: int)
    requires 0 < n <= |groups| && forall i, j :: 0 <= i < j < |groups| ==> groups[i].key != groups[j].key
    ensures CountedTotal(journal, q, groups[..n], account, month)
         == CountedTotal(journal, q, groups[..n - 1], account, month)
            + if AtMonth(groups[n - 1], account, month) then KeyTotal(journal, q, groups[n - 1].key) else 0.0
  {
    var g := groups[n - 1];
    var whole := l => Counted(q, groups[..n], account, month, l);
    var front := l => Counted(q, groups[..n - 1], account, month, l);
    var here := l => Belongs(q, l, g.key);
    if AtMonth(g, account, month) {
      forall l | l in journal ensures !(front(l) && here(l)) && (whole(l) <==> front(l) || here(l)) {
        GroupedStep(q, groups, n, l);
        OneGroupOnly(q, groups, n, l);
      }
      SumSplit(journal, front, here, whole);
    } else {
      forall l | l in journal ensures whole(l) == front(l) {
        GroupedStep(q, groups, n, l);
        OtherMonth(q, l, g, account, month);
      }
      SumAgree(journal, whole, front);
    }
  }

  /** The groups of a month partition its lines, so their sums add up. */
  lemma {:induction false} GroupsPartition(journal: seq<JournalLine>, q: Query, groups: seq<Group>, n: nat,
                                           account: string, month: int)
    requires IsGrouping(journal, q, groups) && n <= |groups|
    ensures GroupTotal(groups[..n], account, month) == CountedTotal(journal, q, groups[..n], account, month)
  {
    if n == 0 {
      SumNone(journal, l => Counted(q, groups[..n], account, month, l));
    } else {
      GroupsPartition(journal, q, groups, n - 1, account, month);
      CountedStep(journal, q, groups, n, account, month);
      assert groups[..n][..n - 1] == groups[..n - 1];
    }
  }

  lemma GroupedStep(q: Query, groups: seq<Group>, n: nat, l: JournalLine)
    requires 0 < n <= |groups|
    ensures Grouped(q, groups[..n], l) <==> Grouped(q, groups[..n - 1], l) || Belongs(q, l, groups[n - 1].key)
  {
  }

  lemma OneMonthOnly(cal: Calendar, m: int, n: int, t: int)
    requires InMonth(cal, m, t) && InMonth(cal, n, t)
    ensures m == n
  {
  }

  lemma OneGroupOnly(q: Query, groups: seq<Group>, n: nat, l: JournalLine)
    requires 0 < n <= |groups| && forall i, j :: 0 <= i < j < |groups| ==> groups[i].key != groups[j].key
    ensures !(Grouped(q, groups[..n - 1], l) && Belongs(q, l, groups[n - 1].key))
  {
  }

  lemma OtherMonth(q: Query, l: JournalLine, g: Group, account: string, month: int)
    requires !AtMonth(g, account, month)
    ensures !(InAccountMonth(q, l, account, month) && Belongs(q, l, g.key))
  {
  }

  lemma GroupTotalIsMonthTotal(journal: seq<JournalLine>, q: Query, groups: seq<Group>, account: string, month: int)
    requires IsGrouping(journal, q, groups)
    ensures GroupTotal(groups, account, month) == MonthTotal(journal, q, account, month)
  {
    GroupsPartition(journal, q, groups, |groups|, account, month);
    assert groups[..|groups|] == groups;
    SumAgree(journal, l => Counted(q, groups, account, month, l), l => InAccountMonth(q, l, account, month));
  }

  predicate StarAt(groups: seq<Group>, k: int, account: string, month: int) {
    0 <= k < |groups| && AtMonth(groups[k], account, month) && groups[k].key.costCenter == WILDCARD
  }

  lemma {:induction false} WildWithoutStar(groups: seq<Group>, account: string, month: int)
    requires forall k :: !StarAt(groups, k, account, month)
    ensures WildBucket(groups, account, month) == GroupTotal(groups, account, month)
  {
    if groups != [] {
      var n := |groups| - 1;
      forall k ensures !StarAt(groups[..n], k, account, month) {
        assert !StarAt(groups, k, account, month);
      }
      WildWithoutStar(groups[..n], account, month);
      assert !StarAt(groups, n, account, month);
    }
  }

  /** A group filed under the sentinel itself erases what came before it and is counted twice. */
  lemma {:induction false} WildWithStar(groups: seq<Group>, k: nat, account: string, month: int)
    requires StarAt(groups, k, account, month) && forall i, j :: 0 <= i < j < |groups| ==>
               groups[i].key != groups[j].key
    ensures WildBucket(groups, account, month)
         == GroupTotal(groups, account, month) - GroupTotal(groups[..k], account, month) + groups[k].sum
  {
    var n := |groups| - 1;
    if k < n {
      WildWithStar(groups[..n], k, account, month);
      assert groups[..n][..k] == groups[..k];
      assert !StarAt(groups, n, account, month);
    }
  }

  /**
   The wildcard bucket is the ledger's total over all cost centres exactly when no line carries the
   sentinel as its cost centre, or the sums that came before the sentinel's group equal that group's.
   */
  lemma WildcardExactIff(journal: seq<JournalLine>, q: Query, groups: seq<Group>, account: string, month: int)
    requires IsGrouping(journal, q, groups)
    ensures WildBucket(groups, account, month) == MonthTotal(journal, q, account, month)
       <==> forall k :: StarAt(groups, k, account, month) ==> GroupTotal(groups[..k], account, month) == groups[k].sum
  {
    GroupTotalIsMonthTotal(journal, q, groups, account, month);
    if k :| StarAt(groups, k, account, month) {
      WildWithStar(groups, k, account, month);
      forall j | StarAt(groups, j, account, month) ensures j == k {
        assert groups[j].key == groups[k].key;
      }
    } else {
      WildWithoutStar(groups, account, month);
    }
  }

  /** One line posted to the cost centre "*" is enough: its amount is counted twice. */
  lemma SentinelCountsTwice(cal: Calendar)
    ensures var journal := [JournalLine("6000", Some(WILDCARD), cal[0], 5.0, 0.0)];
            var q := Query(cal, Window(cal[0], cal[12]), {"6000"});
            var groups := [Group(Key("6000", WILDCARD, 1), 5.0)];
            && IsGrouping(journal, q, groups)
            && WildBucket(groups, "6000", 1) == 10.0 && MonthTotal(journal, q, "6000", 1) == 5.0
  {
    var l := JournalLine("6000", Some(WILDCARD), cal[0], 5.0, 0.0);
    var q := Query(cal, Window(cal[0], cal[12]), {"6000"});
    var g := Group(Key("6000", WILDCARD, 1), 5.0);
    assert Belongs(q, l, g.key) && InAccountMonth(q, l, "6000", 1);
    assert [g][..0] == [];
    SumOfOne(l, l => Belongs(q, l, g.key));
    SumOfOne(l, l => InAccountMonth(q, l, "6000", 1));
    assert KeyTotal([l], q, g.key) == 5.0 && MonthTotal([l], q, "6000", 1) == 5.0;
    assert WildBucket([g], "6000", 1) == 10.0;
    assert Occurs([l], q, g.key) && Grouped(q, [g], l) by {
      assert l in [l] && [g][0] == g;
    }
  }

  ghost predicate NoSentinel(journal: seq<JournalLine>) {
    forall l :: l in journal ==> l.costCenter != Some(WILDCARD)
  }

  lemma CleanJournalHasNoStar(journal: seq<JournalLine>, q: Query, groups: seq<Group>, k: int, account: string,
                              month: int)
    requires IsGrouping(journal, q, groups) && NoSentinel(journal)
    ensures !StarAt(groups, k, account, month)
  {
  }

  /** The true amount behind a key: all cost centres for the sentinel, one cost centre otherwise. */
  function Actual(journal: seq<JournalLine>, q: Query, key: Key): real {
    if key.costCenter == WILDCARD then MonthTotal(journal, q, key.account, key.month) else KeyTotal(journal, q, key)
  }

  lemma TableIsExact(journal: seq<JournalLine>, q: Query, groups: seq<Group>, out: map<Key, real>, key: Key)
    requires IsGrouping(journal, q, groups) && NoSentinel(journal) && TableOf(out, groups)
    ensures Lookup(out, key) == Actual(journal, q, key)
  {
    if key.costCenter == WILDCARD {
      forall k ensures !StarAt(groups, k, key.account, key.month) {
        CleanJournalHasNoStar(journal, q, groups, k, key.account, key.month);
      }
      WildWithoutStar(groups, key.account, key.month);
      GroupTotalIsMonthTotal(journal, q, groups, key.account, key.month);
    } else if key in out {
      assert HasKey(groups, key, out[key]);
    } else {
      forall l | l in journal ensures !Belongs(q, l, key) {
        if Belongs(q, l, key) {
          assert Grouped(q, groups, l);
          var i :| 0 <= i < |groups| && Belongs(q, l, groups[i].key);
          OneMonthOnly(q.cal, groups[i].key.month, key.month, l.postedAt);
        }
      }
      SumNone(journal, l => Belongs(q, l, key));
    }
  }
}
