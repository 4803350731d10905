/** The GET /api/summary aggregation: the total, the count, and the
    per-category sums built by one pass over the records. */
module Summary {
  import opened Wrappers
  import opened Records
  import opened ExpenseStore

  /** One `byCategory` property: a category and the sum of its amounts. */
  datatype Entry = Entry(category: string, amount: int)

  /** The summary body. `byCategory` lists the object's properties in
      insertion order, which is the order `Object.entries` reports them. */
  datatype Report = Report(total: int, count: nat, byCategory: seq<Entry>)

  /** The property names of an entry list. */
  function KeySet(es: seq<Entry>): set<string> {
    if |es| == 0 then {} else {es[0].category} + KeySet(es[1..])
  }

  /** No property name occurs twice. */
  predicate DistinctKeys(es: seq<Entry>) {
    |es| == 0 || (es[0].category !in KeySet(es[1..]) && DistinctKeys(es[1..]))
  }

  /** The value read for property `c`; 0 when the property is absent. */
  function ValueOf(es: seq<Entry>, c: string): int {
    if |es| == 0 then 0
    else if es[0].category == c then es[0].amount
    else ValueOf(es[1..], c)
  }

  /** The sum of all property values. */
  function SumValues(es: seq<Entry>): int {
    if |es| == 0 then 0 else es[0].amount + SumValues(es[1..])
  }

  /** Unfolds the entry-list functions on a list built by prepending `x`. */
  lemma Cons(x: Entry, rest: seq<Entry>)
    ensures KeySet([x] + rest) == {x.category} + KeySet(rest)
    ensures DistinctKeys([x] + rest) <==> x.category !in KeySet(rest) && DistinctKeys(rest)
    ensures forall c :: ValueOf([x] + rest, c) == if x.category == c then x.amount else ValueOf(rest, c)
    ensures SumValues([x] + rest) == x.amount + SumValues(rest)
  {
    assert ([x] + rest)[1..] == rest;
  }

  /** One iteration of the forEach: the property for `e.category` is created
      at 0 when absent (the reset of a falsy value is a no-op on numbers),
      then `e.amount` is added to it. */
  function Add(es: seq<Entry>, e: Expense): (r: seq<Entry>)
    ensures KeySet(r) == KeySet(es) + {e.category}
    ensures DistinctKeys(es) ==> DistinctKeys(r)
    ensures forall c :: ValueOf(r, c) == ValueOf(es, c) + (if c == e.category then e.amount else 0)
    ensures SumValues(r) == SumValues(es) + e.amount
  {
    if |es| == 0 then
      Cons(Entry(e.category, e.amount), []);
      [Entry(e.category, e.amount)]
    else
      assert es == [es[0]] + es[1..];
      Cons(es[0], es[1..]);
      if es[0].category == e.category then
        Cons(Entry(es[0].category, es[0].amount + e.amount), es[1..]);
        [Entry(es[0].category, es[0].amount + e.amount)] + es[1..]
      else
        var rest := Add(es[1..], e);
        Cons(es[0], rest);
        [es[0]] + rest
  }

  /** The forEach over `xs`, starting from the properties in `acc`. */
  function Accumulate(acc: seq<Entry>, xs: seq<Expense>): (r: seq<Entry>)
    ensures KeySet(r) == KeySet(acc) + Categories(xs)
    ensures DistinctKeys(acc) ==> DistinctKeys(r)
    ensures forall c :: ValueOf(r, c) == ValueOf(acc, c) + Total(OfCategory(xs, c))
    ensures SumValues(r) == SumValues(acc) + Total(xs)
    decreases |xs|
  {
    if |xs| == 0 then acc
    else
      assert Categories(xs) == {xs[0].category} + Categories(xs[1..]) by {
        assert xs == [xs[0]] + xs[1..];
      }
      Accumulate(Add(acc, xs[0]), xs[1..])
  }

  /** The `byCategory` object built from an empty one. */
  function ByCategory(xs: seq<Expense>): (r: seq<Entry>)
    ensures KeySet(r) == Categories(xs)
    ensures DistinctKeys(r)
    ensures forall c :: c in KeySet(r) ==> ValueOf(r, c) == Total(OfCategory(xs, c))
    ensures SumValues(r) == Total(xs)
  {
    Accumulate([], xs)
  }

  /** GET /api/summary. Amounts are cents, so rounding the total to two
      decimals leaves it unchanged. */
  function Summarize(s: Store): (r: Report)
    ensures r.count == |s.expenses|
    ensures r.total == Total(s.expenses)
    ensures KeySet(r.byCategory) == Categories(s.expenses) && DistinctKeys(r.byCategory)
    ensures forall c :: c in KeySet(r.byCategory) ==> ValueOf(r.byCategory, c) == Total(OfCategory(s.expenses, c))
    ensures SumValues(r.byCategory) == r.total
  {
    Report(Total(s.expenses), |s.expenses|, ByCategory(s.expenses))
  }

  /** A successful create raises the summary total (the `Total` of the
      stored records, by `Summarize`) by the new amount and the count by one. */
  lemma CreateRaisesTotal(s: Store, b: Body)
    requires Complete(b)
    ensures Total(Create(s, b).store.expenses) == Total(s.expenses) + b.amount.value
    ensures |Create(s, b).store.expenses| == |s.expenses| + 1
  {
    var r := Create(s, b);
    TotalAppend(s.expenses, [r.response.expense]);
  }

  /** A successful delete lowers the summary total by the removed amount
      and the count by one. */
  lemma DeleteLowersTotal(s: Store, id: Option<int>)
    requires Get(s, id).Ok?
    ensures Total(Delete(s, id).store.expenses) == Total(s.expenses) - Get(s, id).expense.amount
    ensures |Delete(s, id).store.expenses| == |s.expenses| - 1
  {
    var r := Delete(s, id);
    var i := FindIndex(s.expenses, id.value).value;
    assert r.store.expenses == s.expenses[..i] + s.expenses[i + 1..];
    TotalRemove(s.expenses, i);
  }

  /** A successful update shifts the summary total by the change in the
      record's amount. */
  lemma UpdateShiftsTotal(s: Store, id: Option<int>, b: Body)
    requires Get(s, id).Ok?
    ensures Total(Update(s, id, b).store.expenses) + Get(s, id).expense.amount == Total(s.expenses) + Update(s, id, b).response.expense.amount
  {
    var r := Update(s, id, b);
    var xs := s.expenses;
    var i := FindIndex(xs, id.value).value;
    assert r.store.expenses == xs[i := Patch(xs[i], b)];
    TotalReplace(xs, i, Patch(xs[i], b));
  }
}
