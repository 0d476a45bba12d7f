/** The Dashboard page's computations over one user's loaded income and expense
    entries: totals, the search filter, the category breakdown, the monthly trend,
    the saving advice, the biggest category to cut, and the latest entries. */
module Dashboard {
  import opened Wrappers
  import opened Text
  import opened Seqs
  import opened Ledger
  import opened Grouping
  import Dates

  // ---------------------------------------------------------------- totals

  datatype Totals = Totals(income: real, expenses: real, savings: real)

  /** Total income, total expenses (0 for an empty frame) and net savings. */
  function ComputeTotals(income: seq<Entry>, expense: seq<Entry>): (t: Totals)
    ensures t.income == Sum(income) && t.expenses == Sum(expense)
    ensures t.savings == t.income - t.expenses
    ensures income == [] ==> t.income == 0.0
    ensures expense == [] ==> t.expenses == 0.0
  {
    var totalIncome := if income == [] then 0.0 else Sum(income);
    var totalExpenses := if expense == [] then 0.0 else Sum(expense);
    Totals(totalIncome, totalExpenses, totalIncome - totalExpenses)
  }

  /** Totals are additive over disjoint parts of the tables. */
  lemma TotalsAdditive(i1: seq<Entry>, i2: seq<Entry>, e1: seq<Entry>, e2: seq<Entry>)
    ensures ComputeTotals(i1 + i2, e1 + e2).income == ComputeTotals(i1, e1).income + ComputeTotals(i2, e2).income
    ensures ComputeTotals(i1 + i2, e1 + e2).expenses == ComputeTotals(i1, e1).expenses + ComputeTotals(i2, e2).expenses
    ensures ComputeTotals(i1 + i2, e1 + e2).savings == ComputeTotals(i1, e1).savings + ComputeTotals(i2, e2).savings
  {
    SumAppend(i1, i2);
    SumAppend(e1, e2);
  }

  /** With non-negative amounts the totals are non-negative, and savings never exceed income. */
  lemma TotalsBounds(income: seq<Entry>, expense: seq<Entry>)
    requires forall i :: 0 <= i < |income| ==> income[i].amount >= 0.0
    requires forall i :: 0 <= i < |expense| ==> expense[i].amount >= 0.0
    ensures ComputeTotals(income, expense).income >= 0.0
    ensures ComputeTotals(income, expense).expenses >= 0.0
    ensures ComputeTotals(income, expense).savings <= ComputeTotals(income, expense).income
  {
    SumNonnegative(income);
    SumNonnegative(expense);
  }

  // ---------------------------------------------------------------- search

  /** The search box's text as used: `.strip().lower()`. */
  function Query(raw: string): string
  {
    Lower(Trim(raw))
  }

  /** `<label>.str.lower().str.contains(query)`, read as a plain substring test. */
  predicate TagMatches(query: string, e: Entry)
  {
    Contains(Lower(e.tag), query)
  }

  /** The filtered frame: unchanged for an empty query, otherwise the entries whose
      lower-cased label contains the query, in their original order. */
  function Search(es: seq<Entry>, raw: string): (r: seq<Entry>)
    ensures Query(raw) == [] ==> r == es
    ensures forall i :: 0 <= i < |r| ==> r[i] in es && TagMatches(Query(raw), r[i])
    ensures forall i :: 0 <= i < |es| && TagMatches(Query(raw), es[i]) ==> es[i] in r
  {
    var q := Query(raw);
    if q == [] then es else Filter(es, e => TagMatches(q, e))
  }

  /** Searching keeps relative order: it distributes over concatenation. */
  lemma SearchAppend(a: seq<Entry>, b: seq<Entry>, raw: string)
    ensures Search(a + b, raw) == Search(a, raw) + Search(b, raw)
  {
    var q := Query(raw);
    if q != [] {
      FilterAppend(a, b, e => TagMatches(q, e));
    }
  }

  /** The case of the typed query does not matter. */
  lemma SearchIgnoresQueryCase(es: seq<Entry>, raw: string)
    ensures Search(es, Lower(raw)) == Search(es, raw)
  {
    TrimLower(raw);
    LowerIdempotent(Trim(raw));
  }

  /** Nor does the case of a label. */
  lemma MatchIgnoresTagCase(query: string, e: Entry)
    ensures TagMatches(query, e) == TagMatches(query, e.(tag := Lower(e.tag)))
  {
    LowerIdempotent(e.tag);
  }

  // ---------------------------------------------------------------- grouping keys

  function TagOf(e: Entry): string
  {
    e.tag
  }

  function MonthKey(e: Entry): string
  {
    Dates.MonthOf(e.date)
  }

  /** The pie chart's data: `groupby("category")["amount"].sum()`. */
  function CategorySums(expense: seq<Entry>): seq<Group>
  {
    GroupBy(expense, TagOf)
  }

  /** The category sums add up to the total expenses shown in the metrics row. */
  lemma CategorySumsTotal(income: seq<Entry>, expense: seq<Entry>)
    ensures Total(CategorySums(expense)) == ComputeTotals(income, expense).expenses
  {
  }

  // ---------------------------------------------------------------- monthly trend

  datatype TrendPoint = TrendPoint(month: string, income: real, expenses: real)

  predicate MonthsAscending(t: seq<TrendPoint>)
  {
    forall i, j :: 0 <= i < j < |t| ==> LexLess(t[i].month, t[j].month)
  }

  function Months(t: seq<TrendPoint>): set<string>
  {
    set i | 0 <= i < |t| :: t[i].month
  }

  function IncomeColumn(t: seq<TrendPoint>): real
  {
    if t == [] then 0.0 else t[0].income + IncomeColumn(t[1..])
  }

  function ExpenseColumn(t: seq<TrendPoint>): real
  {
    if t == [] then 0.0 else t[0].expenses + ExpenseColumn(t[1..])
  }

  /** `DataFrame({"Income": a, "Expenses": b}).fillna(0)`: the two sorted series
      aligned on the union of their indexes, a missing side read as 0. */
  function Align(a: seq<Group>, b: seq<Group>): seq<TrendPoint>
    decreases |a| + |b|
  {
    if a == [] && b == [] then []
    else if b == [] || (a != [] && LexLess(a[0].key, b[0].key)) then
      [TrendPoint(a[0].key, a[0].sum, 0.0)] + Align(a[1..], b)
    else if a == [] || LexLess(b[0].key, a[0].key) then
      [TrendPoint(b[0].key, 0.0, b[0].sum)] + Align(a, b[1..])
    else
      [TrendPoint(a[0].key, a[0].sum, b[0].sum)] + Align(a[1..], b[1..])
  }

  lemma MonthsCons(p: TrendPoint, t: seq<TrendPoint>)
    ensures Months([p] + t) == {p.month} + Months(t)
  {
    var s := [p] + t;
    forall x | x in Months(s) ensures x in {p.month} + Months(t) {
      var i :| 0 <= i < |s| && s[i].month == x;
      if i > 0 {
        assert t[i - 1].month == x;
      }
    }
    forall x | x in Months(t) ensures x in Months(s) {
      var i :| 0 <= i < |t| && t[i].month == x;
      assert s[i + 1].month == x;
    }
    assert s[0].month == p.month;
  }

  /** The aligned months are exactly the months of either side. */
  lemma {:induction false} AlignMonths(a: seq<Group>, b: seq<Group>)
    ensures Months(Align(a, b)) == Keys(a) + Keys(b)
    decreases |a| + |b|
  {
    if a == [] && b == [] {
    } else if b == [] || (a != [] && LexLess(a[0].key, b[0].key)) {
      AlignMonths(a[1..], b);
      AlignStep(a, b, TrendPoint(a[0].key, a[0].sum, 0.0), Align(a[1..], b));
    } else if a == [] || LexLess(b[0].key, a[0].key) {
      AlignMonths(a, b[1..]);
      AlignStep(b, a, TrendPoint(b[0].key, 0.0, b[0].sum), Align(a, b[1..]));
    } else {
      LexLessTotal(a[0].key, b[0].key);
      AlignMonths(a[1..], b[1..]);
      AlignStep(a, b[1..], TrendPoint(a[0].key, a[0].sum, b[0].sum), Align(a[1..], b[1..]));
      KeysCons(b[0], b[1..]);
      assert b == [b[0]] + b[1..];
    }
  }

  /** One step of the merge: emitting the first key of `a` in front of the rest. */
  lemma AlignStep(a: seq<Group>, b: seq<Group>, p: TrendPoint, rest: seq<TrendPoint>)
    requires a != [] && p.month == a[0].key
    requires Months(rest) == Keys(a[1..]) + Keys(b) || Months(rest) == Keys(b) + Keys(a[1..])
    ensures Months([p] + rest) == Keys(a) + Keys(b)
  {
    MonthsCons(p, rest);
    KeysCons(a[0], a[1..]);
    assert a == [a[0]] + a[1..];
  }

  /** A month above which both sides' first keys lie (or are absent) bounds every aligned month. */
  lemma MonthsAbove(a: seq<Group>, b: seq<Group>, k: string, x: string)
    requires KeysAscending(a) && KeysAscending(b)
    requires a != [] ==> LexLess(k, a[0].key)
    requires b != [] ==> LexLess(k, b[0].key)
    requires x in Months(Align(a, b))
    ensures LexLess(k, x)
  {
    AlignMonths(a, b);
    if x in Keys(a) {
      KeysAtLeastFirst(a, x);
      if x != a[0].key {
        LexLessTransitive(k, a[0].key, x);
      }
    } else {
      KeysAtLeastFirst(b, x);
      if x != b[0].key {
        LexLessTransitive(k, b[0].key, x);
      }
    }
  }

  /** Aligned months ascend strictly. */
  lemma {:induction false} AlignAscending(a: seq<Group>, b: seq<Group>)
    requires KeysAscending(a) && KeysAscending(b)
    ensures MonthsAscending(Align(a, b))
    decreases |a| + |b|
  {
    var t := Align(a, b);
    if a == [] && b == [] {
    } else {
      var rest := t[1..];
      var m := t[0].month;
      if b == [] || (a != [] && LexLess(a[0].key, b[0].key)) {
        GroupsTail(a);
        AlignAscending(a[1..], b);
        forall x | x in Months(rest) ensures LexLess(m, x) {
          TailAbove(a);
          MonthsAbove(a[1..], b, m, x);
        }
      } else if a == [] || LexLess(b[0].key, a[0].key) {
        GroupsTail(b);
        AlignAscending(a, b[1..]);
        forall x | x in Months(rest) ensures LexLess(m, x) {
          TailAbove(b);
          MonthsAbove(a, b[1..], m, x);
        }
      } else {
        LexLessTotal(a[0].key, b[0].key);
        GroupsTail(a);
        GroupsTail(b);
        AlignAscending(a[1..], b[1..]);
        forall x | x in Months(rest) ensures LexLess(m, x) {
          TailAbove(a);
          TailAbove(b);
          MonthsAbove(a[1..], b[1..], m, x);
        }
      }
      forall i, j | 0 <= i < j < |t| ensures LexLess(t[i].month, t[j].month) {
        if i == 0 {
          assert t[j].month == rest[j - 1].month;
        } else {
          assert t[i] == rest[i - 1] && t[j] == rest[j - 1];
        }
      }
    }
  }

  /** Each aligned month carries the sum of each side for that month, 0 for a side without it. */
  lemma {:induction false} AlignValues(a: seq<Group>, b: seq<Group>, i: nat)
    requires KeysAscending(a) && KeysAscending(b)
    requires i < |Align(a, b)|
    ensures Align(a, b)[i].income == Lookup(a, Align(a, b)[i].month)
    ensures Align(a, b)[i].expenses == Lookup(b, Align(a, b)[i].month)
    decreases |a| + |b|
  {
    var t := Align(a, b);
    if b == [] || (a != [] && LexLess(a[0].key, b[0].key)) {
      if i == 0 {
        if b != [] { LookupBelow(b, a[0].key); }
      } else {
        var rest := Align(a[1..], b);
        assert t[i] == rest[i - 1];
        GroupsTail(a);
        AlignValues(a[1..], b, i - 1);
        TailAbove(a);
        MonthsAbove(a[1..], b, a[0].key, rest[i - 1].month);
        LookupSkip(a, t[i].month);
      }
    } else if a == [] || LexLess(b[0].key, a[0].key) {
      if i == 0 {
        if a != [] { LookupBelow(a, b[0].key); }
      } else {
        var rest := Align(a, b[1..]);
        assert t[i] == rest[i - 1];
        GroupsTail(b);
        AlignValues(a, b[1..], i - 1);
        TailAbove(b);
        MonthsAbove(a, b[1..], b[0].key, rest[i - 1].month);
        LookupSkip(b, t[i].month);
      }
    } else {
      LexLessTotal(a[0].key, b[0].key);
      if i > 0 {
        var rest := Align(a[1..], b[1..]);
        assert t[i] == rest[i - 1];
        GroupsTail(a);
        GroupsTail(b);
        AlignValues(a[1..], b[1..], i - 1);
        TailAbove(a);
        TailAbove(b);
        MonthsAbove(a[1..], b[1..], a[0].key, rest[i - 1].month);
        LookupSkip(a, t[i].month);
        LookupSkip(b, t[i].month);
      }
    }
  }

  /** Alignment loses no amount: each column sums to its side's total. */
  lemma {:induction false} AlignColumns(a: seq<Group>, b: seq<Group>)
    ensures IncomeColumn(Align(a, b)) == Total(a)
    ensures ExpenseColumn(Align(a, b)) == Total(b)
    decreases |a| + |b|
  {
    if a == [] && b == [] {
    } else if b == [] || (a != [] && LexLess(a[0].key, b[0].key)) {
      AlignColumns(a[1..], b);
    } else if a == [] || LexLess(b[0].key, a[0].key) {
      AlignColumns(a, b[1..]);
    } else {
      AlignColumns(a[1..], b[1..]);
    }
  }

  /** The "Monthly Trends" chart, drawn only when both frames have entries. */
  function MonthlyTrend(income: seq<Entry>, expense: seq<Entry>): Option<seq<TrendPoint>>
  {
    if income == [] || expense == [] then None
    else Some(Align(GroupBy(income, MonthKey), GroupBy(expense, MonthKey)))
  }

  /** The trend's months are the sorted union of the months on either side, each
      with that month's income and expense sums (0 for a side without entries then),
      and its columns add up to the totals. */
  lemma MonthlyTrendSpec(income: seq<Entry>, expense: seq<Entry>)
    ensures MonthlyTrend(income, expense).Some? <==> income != [] && expense != []
    ensures MonthlyTrend(income, expense).Some? ==>
      var t := MonthlyTrend(income, expense).value;
      && MonthsAscending(t)
      && Months(t) == KeysOf(income, MonthKey) + KeysOf(expense, MonthKey)
      && (forall i :: 0 <= i < |t| ==> t[i].income == SumWhere(income, MonthKey, t[i].month))
      && (forall i :: 0 <= i < |t| ==> t[i].expenses == SumWhere(expense, MonthKey, t[i].month))
      && IncomeColumn(t) == ComputeTotals(income, expense).income
      && ExpenseColumn(t) == ComputeTotals(income, expense).expenses
  {
    if income != [] && expense != [] {
      var a, b := GroupBy(income, MonthKey), GroupBy(expense, MonthKey);
      AlignAscending(a, b);
      AlignMonths(a, b);
      AlignColumns(a, b);
      forall i | 0 <= i < |Align(a, b)|
        ensures Align(a, b)[i].income == SumWhere(income, MonthKey, Align(a, b)[i].month)
        ensures Align(a, b)[i].expenses == SumWhere(expense, MonthKey, Align(a, b)[i].month)
      {
        AlignValues(a, b, i);
      }
    }
  }

  // ---------------------------------------------------------------- saving advice

  /** The four alert levels, and the prompt shown when there is no income. */
  datatype Advice = AddIncome | Overspending | HighSpend | Moderate | Healthy

  /** The ladder on `ratio = total_expenses / total_income`, strict comparisons. */
  function Ladder(ratio: real): Advice
  {
    if ratio > 1.0 then Overspending
    else if ratio > 0.8 then HighSpend
    else if ratio > 0.5 then Moderate
    else Healthy
  }

  /** "Cut the top category by 15%": the category with the largest sum (the first
      in key order on a tie), that sum, and 15% of it. */
  datatype Tip = Tip(category: string, amount: real, cut: real)

  function TopCategoryCut(expense: seq<Entry>): Option<Tip>
  {
    if expense == [] then None
    else
      var gs := CategorySums(expense);
      assert gs != [] by {
        assert TagOf(expense[0]) in Keys(gs);
      }
      var g := gs[TopIndex(gs)];
      Some(Tip(g.key, g.sum, g.sum * 0.15))
  }

  datatype Suggestion = Suggestion(advice: Advice, tip: Option<Tip>)

  /** "Smart Saving Suggestions": no ratio when income is 0, otherwise the ladder
      and, when there are expenses, the category tip. */
  function Suggest(totalIncome: real, totalExpenses: real, expense: seq<Entry>): Suggestion
  {
    if totalIncome == 0.0 then Suggestion(AddIncome, None)
    else Suggestion(Ladder(totalExpenses / totalIncome), TopCategoryCut(expense))
  }

  /** For c > 0, comparing a quotient with a constant is comparing cross products. */
  lemma QuotientAbove(e: real, i: real, c: real)
    requires i > 0.0
    ensures e / i > c <==> e > c * i
  {
    var q := e / i;
    assert q * i == e;
    if q > c {
      assert q * i > c * i;
    } else {
      assert q * i <= c * i;
    }
  }

  /** The advice as conditions on the totals, without division: spending above income
      is an error, above 80% a warning, above half a note, otherwise praise. An
      expense total equal to income is a warning and one equal to half is praise. */
  lemma SuggestLadder(totalIncome: real, totalExpenses: real, expense: seq<Entry>)
    ensures totalIncome == 0.0 ==> Suggest(totalIncome, totalExpenses, expense) == Suggestion(AddIncome, None)
    ensures totalIncome > 0.0 ==>
      var a := Suggest(totalIncome, totalExpenses, expense).advice;
      && (a == Overspending <==> totalExpenses > totalIncome)
      && (a == HighSpend <==> 0.8 * totalIncome < totalExpenses <= totalIncome)
      && (a == Moderate <==> 0.5 * totalIncome < totalExpenses <= 0.8 * totalIncome)
      && (a == Healthy <==> totalExpenses <= 0.5 * totalIncome)
  {
    if totalIncome > 0.0 {
      QuotientAbove(totalExpenses, totalIncome, 1.0);
      QuotientAbove(totalExpenses, totalIncome, 0.8);
      QuotientAbove(totalExpenses, totalIncome, 0.5);
    }
  }

  /** The tip names a category that occurs, with its true sum; no category sums to
      more; a category with an equal sum does not sort before it; the cut is 15%. */
  lemma TopCategoryCutSpec(expense: seq<Entry>)
    ensures TopCategoryCut(expense).Some? <==> expense != []
    ensures TopCategoryCut(expense).Some? ==>
      var tip := TopCategoryCut(expense).value;
      && tip.category in KeysOf(expense, TagOf)
      && tip.amount == SumWhere(expense, TagOf, tip.category)
      && tip.cut == 0.15 * tip.amount
      && (forall c :: c in KeysOf(expense, TagOf) ==> SumWhere(expense, TagOf, c) <= tip.amount)
      && (forall c :: c in KeysOf(expense, TagOf) && SumWhere(expense, TagOf, c) == tip.amount ==>
            c == tip.category || LexLess(tip.category, c))
  {
    if expense != [] {
      var gs := CategorySums(expense);
      assert TagOf(expense[0]) in Keys(gs);
      TopGroup(gs);
      var g := gs[TopIndex(gs)];
      assert Lookup(gs, g.key) == SumWhere(expense, TagOf, g.key);
      forall c | c in KeysOf(expense, TagOf)
        ensures SumWhere(expense, TagOf, c) <= g.sum
        ensures SumWhere(expense, TagOf, c) == g.sum ==> c == g.key || LexLess(g.key, c)
      {
        assert Lookup(gs, c) == SumWhere(expense, TagOf, c);
      }
    }
  }

  // ---------------------------------------------------------------- latest entries

  /** Dates never increase along the sequence (newest first). */
  predicate NewestFirst(es: seq<Entry>)
  {
    forall i, j :: 0 <= i < j < |es| ==> !LexLess(es[i].date, es[j].date)
  }

  /** Places `e` before the first entry that is not newer than it. */
  function InsertByDate(e: Entry, sorted: seq<Entry>): seq<Entry>
  {
    if sorted == [] || !LexLess(e.date, sorted[0].date) then [e] + sorted
    else [sorted[0]] + InsertByDate(e, sorted[1..])
  }

  lemma {:induction false} InsertByDateSpec(e: Entry, sorted: seq<Entry>)
    requires NewestFirst(sorted)
    ensures NewestFirst(InsertByDate(e, sorted))
    ensures multiset(InsertByDate(e, sorted)) == multiset(sorted) + multiset{e}
  {
    if sorted == [] || !LexLess(e.date, sorted[0].date) {
      forall j | 0 <= j < |sorted| ensures !LexLess(e.date, sorted[j].date) {
        if j > 0 {
          LexNotLessTransitive(e.date, sorted[0].date, sorted[j].date);
        }
      }
      NewestCons(e, sorted);
    } else {
      var rest := InsertByDate(e, sorted[1..]);
      InsertByDateSpec(e, sorted[1..]);
      assert sorted == [sorted[0]] + sorted[1..];
      forall j | 0 <= j < |rest| ensures !LexLess(sorted[0].date, rest[j].date) {
        assert rest[j] in multiset(sorted[1..]) + multiset{e};
        if rest[j] == e {
          LexLessAsymmetric(e.date, sorted[0].date);
        } else {
          var m :| 0 <= m < |sorted[1..]| && sorted[1..][m] == rest[j];
          assert sorted[m + 1] == rest[j];
        }
      }
      NewestCons(sorted[0], rest);
    }
  }

  /** An entry not older than any entry of a newest-first sequence can go in front. */
  lemma NewestCons(e: Entry, es: seq<Entry>)
    requires NewestFirst(es)
    requires forall j :: 0 <= j < |es| ==> !LexLess(e.date, es[j].date)
    ensures NewestFirst([e] + es)
  {
    var r := [e] + es;
    forall i, j | 0 <= i < j < |r| ensures !LexLess(r[i].date, r[j].date) {
      assert r[j] == es[j - 1];
      if i > 0 {
        assert r[i] == es[i - 1];
      }
    }
  }

  /** `sort_values(by="date", ascending=False)`; entries with equal dates in some order. */
  function SortNewestFirst(es: seq<Entry>): (r: seq<Entry>)
    ensures NewestFirst(r)
    ensures multiset(r) == multiset(es)
  {
    if es == [] then []
    else
      var rest := SortNewestFirst(es[1..]);
      InsertByDateSpec(es[0], rest);
      assert es == [es[0]] + es[1..];
      InsertByDate(es[0], rest)
  }

  const LatestCount: nat := 5

  /** `.head(5)` of the entries sorted newest first. */
  function Latest(es: seq<Entry>): seq<Entry>
  {
    var sorted := SortNewestFirst(es);
    sorted[..if |sorted| < LatestCount then |sorted| else LatestCount]
  }

  /** The latest entries: at most five, taken from the input, newest first, and no
      entry left out is newer than any entry shown. */
  lemma LatestSpec(es: seq<Entry>)
    ensures |Latest(es)| == if |es| < LatestCount then |es| else LatestCount
    ensures multiset(Latest(es)) <= multiset(es)
    ensures NewestFirst(Latest(es))
    ensures forall x, i :: x in multiset(es) - multiset(Latest(es)) && 0 <= i < |Latest(es)| ==>
              !LexLess(Latest(es)[i].date, x.date)
  {
    var sorted := SortNewestFirst(es);
    assert |sorted| == |es| by {
      assert |multiset(sorted)| == |multiset(es)|;
    }
    NewestPrefix(sorted, |Latest(es)|);
  }

  /** A prefix of a newest-first sequence is drawn from it, is newest first, and is
      at least as new as everything after it. */
  lemma NewestPrefix(sorted: seq<Entry>, n: nat)
    requires NewestFirst(sorted) && n <= |sorted|
    ensures multiset(sorted[..n]) <= multiset(sorted)
    ensures NewestFirst(sorted[..n])
    ensures forall x, i :: x in multiset(sorted) - multiset(sorted[..n]) && 0 <= i < n ==>
              !LexLess(sorted[i].date, x.date)
  {
    assert sorted == sorted[..n] + sorted[n..];
    assert multiset(sorted) == multiset(sorted[..n]) + multiset(sorted[n..]);
    forall x, i | x in multiset(sorted) - multiset(sorted[..n]) && 0 <= i < n
      ensures !LexLess(sorted[i].date, x.date)
    {
      assert x in multiset(sorted[n..]);
      var m :| 0 <= m < |sorted[n..]| && sorted[n..][m] == x;
      assert sorted[n + m] == x;
    }
  }

  // ---------------------------------------------------------------- the page

  datatype View = View(
    totals: Totals,
    filteredIncome: seq<Entry>,
    filteredExpenses: seq<Entry>,
    breakdown: Option<seq<Group>>,
    trend: Option<seq<TrendPoint>>,
    suggestion: Suggestion,
    latestIncome: seq<Entry>,
    latestExpenses: seq<Entry>)

  /** What the Dashboard page computes from the loaded frames and the search box. */
  function DashboardView(income: seq<Entry>, expense: seq<Entry>, rawQuery: string): View
  {
    var totals := ComputeTotals(income, expense);
    var fi := Search(income, rawQuery);
    var fe := Search(expense, rawQuery);
    View(totals, fi, fe,
         if expense == [] then None else Some(CategorySums(expense)),
         MonthlyTrend(income, expense),
         Suggest(totals.income, totals.expenses, expense),
         Latest(fi), Latest(fe))
  }

  /** Everything on the page except the two "latest" lists comes from the whole
      frames, whatever the search box holds: the totals; the breakdown, drawn exactly
      when there are expenses; the trend, drawn exactly when both frames have entries,
      with every month of either frame and columns adding up to the totals; the advice
      ladder on the totals; and the tip, shown exactly when there is income and there
      are expenses, naming a category with the largest sum. */
  lemma DashboardViewSpec(income: seq<Entry>, expense: seq<Entry>, rawQuery: string)
    ensures var v := DashboardView(income, expense, rawQuery);
      && v.totals == ComputeTotals(income, expense)
      && (v.breakdown.Some? <==> expense != [])
      && (v.breakdown.Some? ==> v.breakdown.value == CategorySums(expense))
      && (v.trend.Some? <==> income != [] && expense != [])
      && (v.trend.Some? ==>
            && MonthsAscending(v.trend.value)
            && Months(v.trend.value) == KeysOf(income, MonthKey) + KeysOf(expense, MonthKey)
            && IncomeColumn(v.trend.value) == v.totals.income
            && ExpenseColumn(v.trend.value) == v.totals.expenses)
      && (v.totals.income == 0.0 ==> v.suggestion.advice == AddIncome)
      && (v.totals.income > 0.0 ==>
            && (v.suggestion.advice == Overspending <==> v.totals.expenses > v.totals.income)
            && (v.suggestion.advice == HighSpend <==> 0.8 * v.totals.income < v.totals.expenses <= v.totals.income)
            && (v.suggestion.advice == Moderate <==> 0.5 * v.totals.income < v.totals.expenses <= 0.8 * v.totals.income)
            && (v.suggestion.advice == Healthy <==> v.totals.expenses <= 0.5 * v.totals.income))
      && (v.suggestion.tip.Some? <==> v.totals.income != 0.0 && expense != [])
      && (v.suggestion.tip.Some? ==>
            var tip := v.suggestion.tip.value;
            && tip.category in KeysOf(expense, TagOf)
            && tip.amount == SumWhere(expense, TagOf, tip.category)
            && tip.cut == 0.15 * tip.amount
            && (forall c :: c in KeysOf(expense, TagOf) ==> SumWhere(expense, TagOf, c) <= tip.amount)
            && (forall c :: c in KeysOf(expense, TagOf) && SumWhere(expense, TagOf, c) == tip.amount ==>
                  c == tip.category || LexLess(tip.category, c)))
  {
    var v := DashboardView(income, expense, rawQuery);
    MonthlyTrendSpec(income, expense);
    TopCategoryCutSpec(expense);
    SuggestLadder(v.totals.income, v.totals.expenses, expense);
  }

  /** The search narrows the two "latest" lists: each filtered frame holds loaded
      entries only (all of them for an empty query), and each list shows the newest
      min(n, 5) entries of its filtered frame, newest first, none left out being newer. */
  lemma DashboardViewLatest(income: seq<Entry>, expense: seq<Entry>, rawQuery: string)
    ensures var v := DashboardView(income, expense, rawQuery);
      && (Query(rawQuery) == [] ==> v.filteredIncome == income && v.filteredExpenses == expense)
      && (forall i :: 0 <= i < |v.filteredIncome| ==> v.filteredIncome[i] in income)
      && (forall i :: 0 <= i < |v.filteredExpenses| ==> v.filteredExpenses[i] in expense)
      && |v.latestIncome| == (if |v.filteredIncome| < LatestCount then |v.filteredIncome| else LatestCount)
      && |v.latestExpenses| == (if |v.filteredExpenses| < LatestCount then |v.filteredExpenses| else LatestCount)
      && multiset(v.latestIncome) <= multiset(v.filteredIncome)
      && multiset(v.latestExpenses) <= multiset(v.filteredExpenses)
      && NewestFirst(v.latestIncome) && NewestFirst(v.latestExpenses)
      && (forall x, i :: x in multiset(v.filteredIncome) - multiset(v.latestIncome) && 0 <= i < |v.latestIncome| ==>
            !LexLess(v.latestIncome[i].date, x.date))
      && (forall x, i :: x in multiset(v.filteredExpenses) - multiset(v.latestExpenses) && 0 <= i < |v.latestExpenses| ==>
            !LexLess(v.latestExpenses[i].date, x.date))
  {
    var v := DashboardView(income, expense, rawQuery);
    LatestSpec(v.filteredIncome);
    LatestSpec(v.filteredExpenses);
  }
}
