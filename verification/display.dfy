/** The pure parts of the client's two views: the expense list sorted
    newest first, and the category breakdown sorted by amount with a
    percentage bar per row. Markup and DOM updates are not modelled. */
module Display {
  import opened Records
  import opened Summary
  import opened Sorting
  import opened Dates

  // ---------------------------------------------------------------------
  // Expense list

  /** `a` may be listed before `b`: its date is no earlier. */
  predicate NewerOrSame(a: Expense, b: Expense) {
    NotAfter(b.date, a.date)
  }

  lemma NewerOrSameConnected()
    ensures Connected(NewerOrSame)
  {
    forall a: Expense, b: Expense
      ensures NewerOrSame(a, b) || NewerOrSame(b, a)
    {
      NotAfterConnected(a.date, b.date);
    }
  }

  /** The comparator `new Date(b.date) - new Date(a.date)`: a reordering of
      the records in which no record has an earlier date than one after it. */
  function SortNewestFirst(xs: seq<Expense>): (r: seq<Expense>)
    ensures multiset(r) == multiset(xs)
    ensures forall i, j :: 0 <= i < j < |r| ==> NotAfter(r[j].date, r[i].date)
  {
    NewerOrSameConnected();
    var r := SortBy(xs, NewerOrSame);
    assert Transitive(NewerOrSame) by {
      forall a: Expense, b: Expense, c: Expense | NewerOrSame(a, b) && NewerOrSame(b, c)
        ensures NewerOrSame(a, c)
      {
        NotAfterTransitive(c.date, b.date, a.date);
      }
    }
    SortedAllPairs(r, NewerOrSame);
    r
  }

  /** What `displayExpenses` shows: the empty state, or the rows in display order. */
  datatype ListView = NoExpenses | ExpenseRows(rows: seq<Expense>)

  function RenderList(xs: seq<Expense>): (v: ListView)
    ensures v.NoExpenses? <==> |xs| == 0
    ensures v.ExpenseRows? ==> multiset(v.rows) == multiset(xs)
    ensures v.ExpenseRows? ==> forall i, j :: 0 <= i < j < |v.rows| ==> NotAfter(v.rows[j].date, v.rows[i].date)
  {
    if |xs| == 0 then NoExpenses else ExpenseRows(SortNewestFirst(xs))
  }

  /** With well-formed dates the list runs from the latest calendar day to the earliest. */
  lemma ListIsChronological(xs: seq<Expense>)
    requires |xs| > 0
    ensures var rows := RenderList(xs).rows;
      forall i, j :: 0 <= i < j < |rows| && IsIsoDate(rows[i].date) && IsIsoDate(rows[j].date) ==>
        CalendarKey(rows[j].date) <= CalendarKey(rows[i].date)
  {
    var rows := RenderList(xs).rows;
    forall i, j | 0 <= i < j < |rows| && IsIsoDate(rows[i].date) && IsIsoDate(rows[j].date)
      ensures CalendarKey(rows[j].date) <= CalendarKey(rows[i].date)
    {
      IsoOrderIsCalendarOrder(rows[j].date, rows[i].date);
    }
  }

  // ---------------------------------------------------------------------
  // Category breakdown

  /** `a` may be listed before `b`: its amount is no smaller. */
  predicate LargerOrSame(a: Entry, b: Entry) {
    a.amount >= b.amount
  }

  /** The comparator `b[1] - a[1]` over `Object.entries(byCategory)`. */
  function SortByAmount(es: seq<Entry>): (r: seq<Entry>)
    ensures multiset(r) == multiset(es)
    ensures forall i, j :: 0 <= i < j < |r| ==> r[i].amount >= r[j].amount
  {
    var r := SortBy(es, LargerOrSame);
    SortedAllPairs(r, LargerOrSame);
    r
  }

  /** The width of a row's bar: `total > 0 ? (amount / total) * 100 : 0`. */
  function Percentage(amount: int, total: int): (p: real)
    ensures total <= 0 ==> p == 0.0
    ensures total > 0 ==> p * total as real == amount as real * 100.0
  {
    if total > 0 then (amount as real / total as real) * 100.0 else 0.0
  }

  /** A category's share of a positive total lies between 0 and 100. */
  lemma PercentageBounds(amount: int, total: int)
    requires 0 <= amount <= total && total > 0
    ensures 0.0 <= Percentage(amount, total) <= 100.0
  {
    var p := Percentage(amount, total);
    assert p * total as real <= total as real * 100.0;
  }

  /** One breakdown row: the category, its amount and its bar width. */
  datatype Row = Row(entry: Entry, percentage: real)

  /** The entries the rows show, in row order. */
  function EntriesOf(rows: seq<Row>): (es: seq<Entry>)
    ensures |es| == |rows|
    ensures forall i :: 0 <= i < |rows| ==> es[i] == rows[i].entry
  {
    seq(|rows|, i requires 0 <= i < |rows| => rows[i].entry)
  }

  /** What `displayBreakdown` shows: the empty state, or the rows. */
  datatype BreakdownView = NoData | BreakdownRows(rows: seq<Row>)

  function RenderBreakdown(byCategory: seq<Entry>, total: int): (v: BreakdownView)
    ensures v.NoData? <==> |byCategory| == 0
    ensures v.BreakdownRows? ==> multiset(EntriesOf(v.rows)) == multiset(byCategory)
    ensures v.BreakdownRows? ==> forall i, j :: 0 <= i < j < |v.rows| ==> v.rows[i].entry.amount >= v.rows[j].entry.amount
    ensures v.BreakdownRows? ==> forall i :: 0 <= i < |v.rows| ==>
      v.rows[i].percentage == Percentage(v.rows[i].entry.amount, total)
  {
    if |byCategory| == 0 then NoData
    else
      var sorted := SortByAmount(byCategory);
      var rows := seq(|sorted|, i requires 0 <= i < |sorted| => Row(sorted[i], Percentage(sorted[i].amount, total)));
      assert EntriesOf(rows) == sorted;
      BreakdownRows(rows)
  }

  /** The sum of the bar widths. */
  function SumPercentages(rows: seq<Row>): real {
    if |rows| == 0 then 0.0 else rows[0].percentage + SumPercentages(rows[1..])
  }

  /** Reordering entries does not change the sum of their values. */
  lemma {:induction false} SumValuesPermutation(a: seq<Entry>, b: seq<Entry>)
    requires multiset(a) == multiset(b)
    ensures SumValues(a) == SumValues(b)
    decreases |a|
  {
    if |a| == 0 {
      assert |b| == |multiset(b)| == 0;
    } else {
      assert a[0] in multiset(b);
      var k :| 0 <= k < |b| && b[k] == a[0];
      var b' := b[..k] + b[k + 1..];
      MultisetRemove(b, k);
      assert a == [a[0]] + a[1..];
      assert multiset(a[1..]) == multiset(b');
      SumValuesPermutation(a[1..], b');
      SumValuesRemove(b, k);
      assert SumValues(a) == a[0].amount + SumValues(a[1..]);
    }
  }

  /** Splicing out position `k` removes one occurrence of its element. */
  lemma MultisetRemove<T>(b: seq<T>, k: nat)
    requires k < |b|
    ensures multiset(b[..k] + b[k + 1..]) == multiset(b) - multiset{b[k]}
  {
    assert b == b[..k] + [b[k]] + b[k + 1..];
  }

  /** Removing one entry lowers the sum by its value. */
  lemma {:induction false} SumValuesRemove(es: seq<Entry>, k: nat)
    requires k < |es|
    ensures SumValues(es[..k] + es[k + 1..]) == SumValues(es) - es[k].amount
  {
    if k == 0 {
      assert es[..0] + es[1..] == es[1..];
    } else {
      assert (es[..k] + es[k + 1..])[1..] == es[1..][..k - 1] + es[1..][k..];
      SumValuesRemove(es[1..], k - 1);
    }
  }

  /** Shares of one total add up like the amounts they stand for. */
  lemma PercentageAdditive(a: int, b: int, total: int)
    ensures Percentage(a, total) + Percentage(b, total) == Percentage(a + b, total)
  {
    if total > 0 {
      var t := total as real;
      assert a as real / t + b as real / t == (a + b) as real / t;
    }
  }

  /** The bar widths of the rows add up to the share of their summed amounts. */
  lemma {:induction false} SumPercentagesShare(rows: seq<Row>, total: int)
    requires forall i :: 0 <= i < |rows| ==> rows[i].percentage == Percentage(rows[i].entry.amount, total)
    ensures SumPercentages(rows) == Percentage(SumValues(EntriesOf(rows)), total)
  {
    if |rows| == 0 {
      assert EntriesOf(rows) == [];
    } else {
      SumPercentagesShare(rows[1..], total);
      var es := EntriesOf(rows);
      assert es[1..] == EntriesOf(rows[1..]);
      assert SumValues(es) == rows[0].entry.amount + SumValues(EntriesOf(rows[1..]));
      PercentageAdditive(rows[0].entry.amount, SumValues(EntriesOf(rows[1..])), total);
    }
  }

  /** The breakdown of a summary with a positive total fills exactly 100%
      of the bars between its rows. */
  lemma BreakdownFillsHundred(r: Report)
    requires r.total > 0 && SumValues(r.byCategory) == r.total
    ensures RenderBreakdown(r.byCategory, r.total).BreakdownRows?
    ensures SumPercentages(RenderBreakdown(r.byCategory, r.total).rows) == 100.0
  {
    var v := RenderBreakdown(r.byCategory, r.total);
    assert v.BreakdownRows?;
    var rows := v.rows;
    SumValuesPermutation(EntriesOf(rows), r.byCategory);
    SumPercentagesShare(rows, r.total);
    WholeIsHundred(r.total);
  }

  /** The whole of a positive total is 100%. */
  lemma WholeIsHundred(total: int)
    requires total > 0
    ensures Percentage(total, total) == 100.0
  {
  }
}
