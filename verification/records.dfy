/** The expense record, the request body that creates or patches one,
    and the linear scans the handlers run over the record sequence. */
module Records {
  import opened Wrappers

  /** One stored expense. `amount` is in integer cents, so sums and the
      two-decimal rounding of totals are exact. */
  datatype Expense = Expense(id: int, description: string, amount: int, category: string, date: string)

  /** The fields of a seed record, before the store numbers it. */
  datatype Draft = Draft(description: string, amount: int, category: string, date: string)

  /** The four fields destructured from a create or update request body.
      `None` is a field the body leaves undefined. */
  datatype Body = Body(description: Option<string>, amount: Option<int>, category: Option<string>, date: Option<string>)

  /** A body that supplies nothing: `{}`. */
  const EmptyBody: Body := Body(None, None, None, None)

  /** JavaScript truthiness of a string-valued field: defined and not "". */
  predicate Supplied(f: Option<string>) {
    f.Some? && f.value != ""
  }

  /** The create handler's acceptance test: every text field truthy and the
      amount merely defined (so an amount of 0 passes). */
  predicate Complete(b: Body) {
    Supplied(b.description) && b.amount.Some? && Supplied(b.category) && Supplied(b.date)
  }

  /** The update handler's field-by-field overwrite of one record: text
      fields only when truthy, the amount whenever defined. */
  function Patch(e: Expense, b: Body): (r: Expense)
    ensures r.id == e.id
    ensures Supplied(b.description) ==> r.description == b.description.value
    ensures !Supplied(b.description) ==> r.description == e.description
    ensures b.amount.Some? ==> r.amount == b.amount.value
    ensures b.amount.None? ==> r.amount == e.amount
    ensures Supplied(b.category) ==> r.category == b.category.value
    ensures !Supplied(b.category) ==> r.category == e.category
    ensures Supplied(b.date) ==> r.date == b.date.value
    ensures !Supplied(b.date) ==> r.date == e.date
  {
    Expense(
      e.id,
      if Supplied(b.description) then b.description.value else e.description,
      b.amount.GetOr(e.amount),
      if Supplied(b.category) then b.category.value else e.category,
      if Supplied(b.date) then b.date.value else e.date)
  }

  /** Patching with a body that supplies nothing leaves the record as it was. */
  lemma PatchEmpty(e: Expense, b: Body)
    requires !Supplied(b.description) && b.amount.None? && !Supplied(b.category) && !Supplied(b.date)
    ensures Patch(e, b) == e
  {
  }

  /** Applying the same patch twice is the same as applying it once. */
  lemma PatchIdempotent(e: Expense, b: Body)
    ensures Patch(Patch(e, b), b) == Patch(e, b)
  {
  }

  /** The index `Array.prototype.findIndex` returns for `e.id === id`:
      the first record carrying `id`, or None when there is none. */
  function FindIndex(xs: seq<Expense>, id: int): (r: Option<nat>)
    ensures r.Some? ==> r.value < |xs| && xs[r.value].id == id
    ensures r.Some? ==> forall j :: 0 <= j < r.value ==> xs[j].id != id
    ensures r.None? <==> forall j :: 0 <= j < |xs| ==> xs[j].id != id
  {
    if |xs| == 0 then None
    else if xs[0].id == id then Some(0)
    else
      match FindIndex(xs[1..], id)
      case None => None
      case Some(i) => Some(i + 1)
  }

  /** The order-preserving filter `expenses.filter(e => e.category === c)`. */
  function OfCategory(xs: seq<Expense>, c: string): (r: seq<Expense>)
    ensures |r| <= |xs|
    ensures forall e :: multiset(r)[e] == if e.category == c then multiset(xs)[e] else 0
    ensures forall e :: e in r <==> e in xs && e.category == c
  {
    if |xs| == 0 then []
    else
      assert xs == [xs[0]] + xs[1..];
      if xs[0].category == c then [xs[0]] + OfCategory(xs[1..], c)
      else OfCategory(xs[1..], c)
  }

  /** Filtering a concatenation filters each part: with the singleton case
      this pins the filter down as the order-preserving subsequence. */
  lemma {:induction false} OfCategoryAppend(a: seq<Expense>, b: seq<Expense>, c: string)
    ensures OfCategory(a + b, c) == OfCategory(a, c) + OfCategory(b, c)
  {
    if |a| == 0 {
      assert a + b == b;
    } else {
      assert (a + b)[1..] == a[1..] + b;
      OfCategoryAppend(a[1..], b, c);
    }
  }

  /** A one-record sequence is kept exactly when its category matches. */
  lemma OfCategorySingle(e: Expense, c: string)
    ensures OfCategory([e], c) == if e.category == c then [e] else []
  {
  }

  /** Sum of the amounts, `expenses.reduce((sum, e) => sum + e.amount, 0)`. */
  function Total(xs: seq<Expense>): int {
    if |xs| == 0 then 0 else xs[0].amount + Total(xs[1..])
  }

  /** Summation splits over concatenation. */
  lemma {:induction false} TotalAppend(a: seq<Expense>, b: seq<Expense>)
    ensures Total(a + b) == Total(a) + Total(b)
  {
    if |a| == 0 {
      assert a + b == b;
    } else {
      assert (a + b)[1..] == a[1..] + b;
      TotalAppend(a[1..], b);
    }
  }

  /** Replacing one record changes the sum by the difference of the amounts. */
  lemma {:induction false} TotalReplace(xs: seq<Expense>, i: nat, e: Expense)
    requires i < |xs|
    ensures Total(xs[i := e]) == Total(xs) - xs[i].amount + e.amount
  {
    if i > 0 {
      assert xs[i := e][1..] == xs[1..][i - 1 := e];
      TotalReplace(xs[1..], i - 1, e);
    }
  }

  /** Removing one record lowers the sum by its amount. */
  lemma {:induction false} TotalRemove(xs: seq<Expense>, i: nat)
    requires i < |xs|
    ensures Total(xs[..i] + xs[i + 1..]) == Total(xs) - xs[i].amount
  {
    if i == 0 {
      assert xs[..0] + xs[1..] == xs[1..];
    } else {
      assert (xs[..i] + xs[i + 1..])[1..] == xs[1..][..i - 1] + xs[1..][i..];
      TotalRemove(xs[1..], i - 1);
    }
  }

  /** The set of categories present among the records. */
  function Categories(xs: seq<Expense>): (r: set<string>)
    ensures forall c :: c in r <==> exists e :: e in xs && e.category == c
  {
    set e | e in xs :: e.category
  }
}
