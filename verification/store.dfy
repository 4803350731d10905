/** The server's in-memory expense store and the logic of its five record
    handlers (list, get, create, update, delete), as pure functions from a
    store to a response and the next store. */
module ExpenseStore {
  import opened Wrappers
  import opened Records

  /** The process-wide state: the record sequence and the id counter. */
  datatype Store = Store(expenses: seq<Expense>, nextId: int)

  /** A handler's answer: the record (200 or 201), 404 or 400. */
  datatype Response = Ok(expense: Expense) | NotFound | BadRequest

  /** A handler's answer together with the store it leaves behind. */
  datatype Step = Step(response: Response, store: Store)

  /** Ids are positive, distinct and all below the counter. */
  predicate Valid(s: Store) {
    && 1 <= s.nextId
    && (forall i :: 0 <= i < |s.expenses| ==> 1 <= s.expenses[i].id < s.nextId)
    && (forall i, j :: 0 <= i < j < |s.expenses| ==> s.expenses[i].id != s.expenses[j].id)
  }

  /** The start-up store: the seed records numbered 1..n and the counter at n + 1. */
  function Seed(drafts: seq<Draft>): (s: Store)
    ensures Valid(s)
    ensures |s.expenses| == |drafts| && s.nextId == |drafts| + 1
    ensures forall i :: 0 <= i < |drafts| ==> s.expenses[i].id == i + 1
  {
    Store(seq(|drafts|, i requires 0 <= i < |drafts| =>
      Expense(i + 1, drafts[i].description, drafts[i].amount, drafts[i].category, drafts[i].date)),
      |drafts| + 1)
  }

  /** GET /api/expenses[?category=c]: all records, or only those of category
      `c` when the query parameter is truthy. */
  function List(s: Store, category: Option<string>): (r: seq<Expense>)
    ensures !Supplied(category) ==> r == s.expenses
    ensures Supplied(category) ==> forall e :: e in r <==> e in s.expenses && e.category == category.value
    ensures Supplied(category) ==> forall e: Expense :: e.category == category.value ==> multiset(r)[e] == multiset(s.expenses)[e]
  {
    if Supplied(category) then OfCategory(s.expenses, category.value) else s.expenses
  }

  /** GET /api/expenses/:id. `id` is the parsed path parameter; None stands
      for a segment that does not parse to a number. */
  function Get(s: Store, id: Option<int>): (r: Response)
    ensures !r.BadRequest?
    ensures r.Ok? <==> id.Some? && exists e :: e in s.expenses && e.id == id.value
    ensures r.Ok? ==> r.expense.id == id.value && (exists i ::
      && 0 <= i < |s.expenses| && s.expenses[i] == r.expense
      && forall j :: 0 <= j < i ==> s.expenses[j].id != id.value)
  {
    if id.None? then NotFound
    else
      match FindIndex(s.expenses, id.value)
      case None => NotFound
      case Some(i) => Ok(s.expenses[i])
  }

  /** In a valid store, a stored record is exactly what a lookup of its id returns. */
  lemma GetFindsStored(s: Store, i: nat)
    requires Valid(s) && i < |s.expenses|
    ensures Get(s, Some(s.expenses[i].id)) == Ok(s.expenses[i])
  {
    var k := FindIndex(s.expenses, s.expenses[i].id);
    assert k.Some?;
    assert k.value == i by {
      if k.value < i {
      } else if k.value > i {
      }
    }
  }

  /** POST /api/expenses: 400 and no change when a required field is missing,
      otherwise a record numbered with the counter, appended at the end. */
  function Create(s: Store, b: Body): (r: Step)
    ensures !r.response.NotFound?
    ensures r.response.BadRequest? <==> !Complete(b)
    ensures r.response.BadRequest? ==> r.store == s
    ensures r.response.Ok? ==>
      && r.response.expense == Expense(s.nextId, b.description.value, b.amount.value, b.category.value, b.date.value)
      && r.store.expenses == s.expenses + [r.response.expense]
      && r.store.nextId == s.nextId + 1
  {
    if !Complete(b) then Step(BadRequest, s)
    else
      var e := Expense(s.nextId, b.description.value, b.amount.value, b.category.value, b.date.value);
      Step(Ok(e), Store(s.expenses + [e], s.nextId + 1))
  }

  /** PUT /api/expenses/:id: 404 and no change for an unknown id, otherwise
      the first record with that id is patched in place and returned. */
  function Update(s: Store, id: Option<int>, b: Body): (r: Step)
    ensures !r.response.BadRequest?
    ensures r.store.nextId == s.nextId && |r.store.expenses| == |s.expenses|
    ensures r.response.NotFound? <==> id.None? || forall e :: e in s.expenses ==> e.id != id.value
    ensures r.response.NotFound? ==> r.store == s
    ensures r.response.Ok? ==> id.Some? && (exists i ::
         && 0 <= i < |s.expenses| && s.expenses[i].id == id.value
         && (forall j :: 0 <= j < i ==> s.expenses[j].id != id.value)
         && r.response.expense == Patch(s.expenses[i], b)
         && r.store.expenses == s.expenses[i := r.response.expense])
  {
    if id.None? then Step(NotFound, s)
    else
      match FindIndex(s.expenses, id.value)
      case None => Step(NotFound, s)
      case Some(i) =>
        var e := Patch(s.expenses[i], b);
        Step(Ok(e), Store(s.expenses[i := e], s.nextId))
  }

  /** DELETE /api/expenses/:id: 404 and no change for an unknown id, otherwise
      the first record with that id is spliced out and returned. */
  function Delete(s: Store, id: Option<int>): (r: Step)
    ensures !r.response.BadRequest?
    ensures r.store.nextId == s.nextId
    ensures r.response.NotFound? <==> id.None? || forall e :: e in s.expenses ==> e.id != id.value
    ensures r.response.NotFound? ==> r.store == s
    ensures r.response.Ok? ==> id.Some? && (exists i ::
         && 0 <= i < |s.expenses| && s.expenses[i] == r.response.expense
         && r.response.expense.id == id.value
         && (forall j :: 0 <= j < i ==> s.expenses[j].id != id.value)
         && r.store.expenses == s.expenses[..i] + s.expenses[i + 1..])
  {
    if id.None? then Step(NotFound, s)
    else
      match FindIndex(s.expenses, id.value)
      case None => Step(NotFound, s)
      case Some(i) => Step(Ok(s.expenses[i]), Store(s.expenses[..i] + s.expenses[i + 1..], s.nextId))
  }

  // ---------------------------------------------------------------------
  // Properties of the handlers

  /** The create handler keeps ids distinct and below the counter. */
  lemma CreatePreservesValid(s: Store, b: Body)
    requires Valid(s)
    ensures Valid(Create(s, b).store)
  {
  }

  /** A created record's id is larger than every id already stored. */
  lemma CreateIdIsFresh(s: Store, b: Body)
    requires Valid(s) && Complete(b)
    ensures forall e :: e in s.expenses ==> e.id < Create(s, b).response.expense.id
  {
  }

  /** A created record is what a following get of its id returns, and the
      count grows by exactly one. */
  lemma CreateThenGet(s: Store, b: Body)
    requires Valid(s) && Complete(b)
    ensures var r := Create(s, b);
      && |r.store.expenses| == |s.expenses| + 1
      && Get(r.store, Some(s.nextId)) == r.response
  {
    var r := Create(s, b);
    CreatePreservesValid(s, b);
    GetFindsStored(r.store, |s.expenses|);
  }

  /** The update handler keeps ids distinct and below the counter. */
  lemma UpdatePreservesValid(s: Store, id: Option<int>, b: Body)
    requires Valid(s)
    ensures Valid(Update(s, id, b).store)
  {
    var r := Update(s, id, b);
    if r.response.Ok? {
      var i :| 0 <= i < |s.expenses| && r.store.expenses == s.expenses[i := Patch(s.expenses[i], b)];
      assert forall k :: 0 <= k < |s.expenses| ==> r.store.expenses[k].id == s.expenses[k].id;
    }
  }

  /** An update whose body supplies nothing changes nothing, and still
      answers with the record. */
  lemma UpdateEmptyIsIdentity(s: Store, id: Option<int>)
    ensures Update(s, id, EmptyBody).store == s
    ensures Update(s, id, EmptyBody).response == Get(s, id)
  {
    var r := Update(s, id, EmptyBody);
    if r.response.Ok? {
      var i :| 0 <= i < |s.expenses| && r.store.expenses == s.expenses[i := Patch(s.expenses[i], EmptyBody)];
      PatchEmpty(s.expenses[i], EmptyBody);
      assert r.store.expenses == s.expenses;
    }
  }

  /** Repeating an update is the same as doing it once. */
  lemma UpdateIdempotent(s: Store, id: Option<int>, b: Body)
    ensures Update(Update(s, id, b).store, id, b) == Update(s, id, b)
  {
    var r := Update(s, id, b);
    if r.response.Ok? {
      var i := FindIndex(s.expenses, id.value).value;
      PatchIdempotent(s.expenses[i], b);
      assert forall k :: 0 <= k < |s.expenses| ==> r.store.expenses[k].id == s.expenses[k].id;
      assert FindIndex(r.store.expenses, id.value) == Some(i) by {
        var k := FindIndex(r.store.expenses, id.value);
        assert k.Some?;
        assert k.value == i by {
          if k.value < i {
          } else if k.value > i {
          }
        }
      }
      assert r.store.expenses[i := Patch(r.store.expenses[i], b)] == r.store.expenses;
    }
  }

  /** The delete handler keeps ids distinct and below the counter. */
  lemma DeletePreservesValid(s: Store, id: Option<int>)
    requires Valid(s)
    ensures Valid(Delete(s, id).store)
  {
    var r := Delete(s, id);
    if r.response.Ok? {
      var xs := s.expenses;
      var i :| 0 <= i < |xs| && r.store.expenses == xs[..i] + xs[i + 1..];
      var ys := r.store.expenses;
      forall k | 0 <= k < |ys|
        ensures ys[k] == xs[Skip(k, i)]
      {
        SpliceIndex(xs, i, k);
      }
      forall k, l | 0 <= k < l < |ys|
        ensures ys[k].id != ys[l].id
      {
        assert Skip(k, i) < Skip(l, i);
      }
    }
  }

  /** Position in the original sequence of position `k` after splicing out `i`. */
  function Skip(k: nat, i: nat): nat {
    if k < i then k else k + 1
  }

  lemma SpliceIndex(xs: seq<Expense>, i: nat, k: nat)
    requires i < |xs| && k < |xs| - 1
    ensures (xs[..i] + xs[i + 1..])[k] == xs[Skip(k, i)]
  {
  }

  /** Deleting removes one occurrence of the returned record and nothing else. */
  lemma DeleteRemovesOne(s: Store, id: Option<int>)
    requires Delete(s, id).response.Ok?
    ensures multiset(Delete(s, id).store.expenses) + multiset{Delete(s, id).response.expense} == multiset(s.expenses)
    ensures |Delete(s, id).store.expenses| == |s.expenses| - 1
  {
    var r := Delete(s, id);
    var i := FindIndex(s.expenses, id.value).value;
    assert r.store.expenses == s.expenses[..i] + s.expenses[i + 1..];
    assert s.expenses == s.expenses[..i] + [s.expenses[i]] + s.expenses[i + 1..];
  }

  /** In a valid store, once a record is deleted its id is not found again. */
  lemma DeleteThenGet(s: Store, id: Option<int>)
    requires Valid(s)
    ensures Get(Delete(s, id).store, id) == NotFound
  {
    var r := Delete(s, id);
    if r.response.Ok? {
      var i :| 0 <= i < |s.expenses| && s.expenses[i] == r.response.expense
        && r.store.expenses == s.expenses[..i] + s.expenses[i + 1..];
      var xs, ys := s.expenses, r.store.expenses;
      forall k | 0 <= k < |ys|
        ensures ys[k].id != id.value
      {
        SpliceIndex(xs, i, k);
      }
      assert forall e :: e in ys ==> e.id != id.value;
    }
  }

  // ---------------------------------------------------------------------
  // Sequences of mutating requests

  /** The mutating requests: POST, PUT and DELETE. */
  datatype Mutation = CreateReq(body: Body) | UpdateReq(id: Option<int>, patch: Body) | DeleteReq(target: Option<int>)

  /** Route one mutating request to its handler. */
  function Handle(s: Store, m: Mutation): Step {
    match m
    case CreateReq(b) => Create(s, b)
    case UpdateReq(id, b) => Update(s, id, b)
    case DeleteReq(id) => Delete(s, id)
  }

  /** The store after a series of mutating requests, handled in order. */
  function Run(s: Store, ms: seq<Mutation>): Store
    decreases |ms|
  {
    if |ms| == 0 then s else Run(Handle(s, ms[0]).store, ms[1..])
  }

  /** Across any series of requests the store stays valid, the counter
      never decreases, and every id present afterwards is either one that
      was already there or one handed out by the counter meanwhile. */
  lemma {:induction false} RunPreservesValid(s: Store, ms: seq<Mutation>)
    requires Valid(s)
    ensures Valid(Run(s, ms))
    ensures Run(s, ms).nextId >= s.nextId
    ensures forall e :: e in Run(s, ms).expenses ==> HasId(s, e.id) || s.nextId <= e.id < Run(s, ms).nextId
    decreases |ms|
  {
    if |ms| > 0 {
      var t := Handle(s, ms[0]).store;
      match ms[0] {
        case CreateReq(b) => CreatePreservesValid(s, b);
        case UpdateReq(id, b) => UpdatePreservesValid(s, id, b);
        case DeleteReq(id) => DeletePreservesValid(s, id);
      }
      RunPreservesValid(t, ms[1..]);
      var u := Run(s, ms);
      assert u == Run(t, ms[1..]);
      forall e | e in u.expenses
        ensures HasId(s, e.id) || s.nextId <= e.id < u.nextId
      {
        if HasId(t, e.id) {
          var o :| o in t.expenses && o.id == e.id;
          StepKeepsIds(s, ms[0], o);
        }
      }
    }
  }

  /** Some stored record carries `id`. */
  predicate HasId(s: Store, id: int) {
    exists o :: o in s.expenses && o.id == id
  }

  /** One request either keeps a record's id from before or hands it out new. */
  lemma StepKeepsIds(s: Store, m: Mutation, e: Expense)
    requires e in Handle(s, m).store.expenses
    ensures HasId(s, e.id) || s.nextId <= e.id < Handle(s, m).store.nextId
  {
    var r := Handle(s, m);
    var k :| 0 <= k < |r.store.expenses| && r.store.expenses[k] == e;
    match m
    case CreateReq(b) =>
      if k < |s.expenses| {
        assert s.expenses[k] in s.expenses;
      }
    case UpdateReq(id, b) =>
      if r.response.Ok? {
        var i :| 0 <= i < |s.expenses| && r.store.expenses == s.expenses[i := Patch(s.expenses[i], b)];
        assert s.expenses[k] in s.expenses && s.expenses[k].id == e.id;
      }
    case DeleteReq(id) =>
      if r.response.Ok? {
        var i :| 0 <= i < |s.expenses| && r.store.expenses == s.expenses[..i] + s.expenses[i + 1..];
        SpliceIndex(s.expenses, i, k);
        assert s.expenses[Skip(k, i)] in s.expenses;
      }
  }
}
