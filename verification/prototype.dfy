/** The per-category sums exactly as the summary handler computes them on a
    plain object literal `{}`. Such an object inherits the members of
    `Object.prototype`, so for a category spelled like one of them the
    "is there a value yet" test already sees a truthy method, the creation
    at 0 is skipped, and `+=` turns the method into text. For `__proto__`
    the accessor returns the truthy prototype, and the string that `+=`
    assigns is ignored by the setter, so nothing changes. The corrected
    aggregation, with no inherited names, is `Summary.ByCategory`. */
module PrototypeKeys {
  import opened Wrappers
  import opened Records
  import Summary

  /** The property names every plain object inherits from `Object.prototype`. */
  predicate Inherited(c: string) {
    c in ["constructor", "hasOwnProperty", "isPrototypeOf", "propertyIsEnumerable",
          "toLocaleString", "toString", "valueOf", "__defineGetter__", "__defineSetter__",
          "__lookupGetter__", "__lookupSetter__", "__proto__"]
  }

  /** An own property value: a number, or the string that adding a number
      to a function produces. */
  datatype Value = Amount(n: int) | Text

  datatype Prop = Prop(key: string, value: Value)

  /** The own property names. */
  function Keys(ps: seq<Prop>): set<string> {
    set p | p in ps :: p.key
  }

  /** The value an own-property read `obj[k]` sees: the first property named `k`. */
  function Lookup(ps: seq<Prop>, k: string): (r: Option<Value>)
    ensures r.Some? <==> k in Keys(ps)
    ensures r.Some? ==> Prop(k, r.value) in ps
  {
    if |ps| == 0 then None
    else
      KeysCons(ps[0], ps[1..]);
      assert ps == [ps[0]] + ps[1..];
      if ps[0].key == k then Some(ps[0].value) else Lookup(ps[1..], k)
  }

  /** Unfolds `Keys` on a list built by prepending `p`. */
  lemma KeysCons(p: Prop, rest: seq<Prop>)
    ensures Keys([p] + rest) == {p.key} + Keys(rest)
  {
    var ps := [p] + rest;
    assert forall q :: q in ps <==> q == p || q in rest;
  }

  /** Unfolds `Lookup` on a list built by prepending `p`. */
  lemma LookupCons(p: Prop, rest: seq<Prop>, k: string)
    ensures Lookup([p] + rest, k) == if p.key == k then Some(p.value) else Lookup(rest, k)
  {
    var ps := [p] + rest;
    assert ps[0] == p && ps[1..] == rest;
  }

  /** How `obj[k] += amount` changes an own property that was already
      there: a number grows by the amount, a text stays text. */
  predicate Grows(before: Option<Value>, after: Option<Value>, amount: int) {
    match before
    case Some(Amount(n)) => after == Some(Amount(n + amount))
    case Some(Text) => after == Some(Text)
    case None => true
  }

  /** One forEach iteration on the object as written. An own numeric
      property grows by the amount, a text property stays text, and every
      other property is left as it was. */
  function AddAsWritten(ps: seq<Prop>, e: Expense): (r: seq<Prop>)
    ensures e.category in Keys(ps) ==> Keys(r) == Keys(ps)
    ensures Grows(Lookup(ps, e.category), Lookup(r, e.category), e.amount)
    ensures forall k :: k != e.category ==> Lookup(r, k) == Lookup(ps, k)
    ensures e.category !in Keys(ps) && !Inherited(e.category) ==> r == ps + [Prop(e.category, Amount(e.amount))]
    ensures e.category !in Keys(ps) && e.category == "__proto__" ==> r == ps
    ensures e.category !in Keys(ps) && Inherited(e.category) && e.category != "__proto__" ==>
      r == ps + [Prop(e.category, Text)]
  {
    if |ps| == 0 then
      if !Inherited(e.category) then
        AppendLookup([], Prop(e.category, Amount(e.amount)));
        [Prop(e.category, Amount(e.amount))]
      else if e.category == "__proto__" then []
      else
        AppendLookup([], Prop(e.category, Text));
        [Prop(e.category, Text)]
    else if ps[0].key == e.category then
      var v := match ps[0].value
        case Amount(n) => Amount(n + e.amount)
        case Text => Text;
      ReplaceHead(ps, v);
      [Prop(ps[0].key, v)] + ps[1..]
    else
      var r' := AddAsWritten(ps[1..], e);
      KeepHead(ps, r', e);
      [ps[0]] + r'
  }

  /** Replacing the value of the first property changes only what reads of
      its name see. */
  lemma ReplaceHead(ps: seq<Prop>, v: Value)
    requires |ps| > 0
    ensures Keys([Prop(ps[0].key, v)] + ps[1..]) == Keys(ps)
    ensures Lookup(ps, ps[0].key) == Some(ps[0].value)
    ensures Lookup([Prop(ps[0].key, v)] + ps[1..], ps[0].key) == Some(v)
    ensures forall k :: k != ps[0].key ==> Lookup([Prop(ps[0].key, v)] + ps[1..], k) == Lookup(ps, k)
  {
    var p, rest := ps[0], ps[1..];
    assert ps == [p] + rest;
    KeysCons(p, rest);
    KeysCons(Prop(p.key, v), rest);
    LookupCons(p, rest, p.key);
    LookupCons(Prop(p.key, v), rest, p.key);
    forall k | k != p.key
      ensures Lookup([Prop(p.key, v)] + rest, k) == Lookup([p] + rest, k)
    {
      LookupCons(p, rest, k);
      LookupCons(Prop(p.key, v), rest, k);
    }
  }

  /** The recursive step of `AddAsWritten`: a head under another name stays
      in front of the step `r'` applied to the rest. */
  lemma KeepHead(ps: seq<Prop>, r': seq<Prop>, e: Expense)
    requires |ps| > 0 && ps[0].key != e.category
    requires e.category in Keys(ps[1..]) ==> Keys(r') == Keys(ps[1..])
    requires forall k :: k != e.category ==> Lookup(r', k) == Lookup(ps[1..], k)
    ensures e.category in Keys(ps) <==> e.category in Keys(ps[1..])
    ensures e.category in Keys(ps) ==> Keys([ps[0]] + r') == Keys(ps)
    ensures Lookup([ps[0]] + r', e.category) == Lookup(r', e.category)
    ensures Lookup(ps, e.category) == Lookup(ps[1..], e.category)
    ensures forall k :: k != e.category ==> Lookup([ps[0]] + r', k) == Lookup(ps, k)
    ensures forall q :: [ps[0]] + (ps[1..] + [q]) == ps + [q]
  {
    var p, rest := ps[0], ps[1..];
    assert ps == [p] + rest;
    KeysCons(p, rest);
    KeysCons(p, r');
    LookupCons(p, rest, e.category);
    LookupCons(p, r', e.category);
    forall k | k != e.category
      ensures Lookup([p] + r', k) == Lookup([p] + rest, k)
    {
      LookupCons(p, rest, k);
      LookupCons(p, r', k);
    }
  }

  /** Appending a property does not change what reads of other names see. */
  lemma {:induction false} AppendLookup(ps: seq<Prop>, p: Prop)
    requires p.key !in Keys(ps)
    ensures forall k :: k != p.key ==> Lookup(ps + [p], k) == Lookup(ps, k)
    ensures Lookup(ps + [p], p.key) == Some(p.value)
  {
    if |ps| == 0 {
      assert ps + [p] == [p] + [];
      LookupCons(p, [], p.key);
      forall k | k != p.key
        ensures Lookup(ps + [p], k) == Lookup(ps, k)
      {
        LookupCons(p, [], k);
      }
    } else {
      KeysCons(ps[0], ps[1..]);
      assert ps == [ps[0]] + ps[1..];
      AppendLookup(ps[1..], p);
      assert ps + [p] == [ps[0]] + (ps[1..] + [p]);
      LookupCons(ps[0], ps[1..] + [p], p.key);
      forall k | k != p.key
        ensures Lookup(ps + [p], k) == Lookup(ps, k)
      {
        LookupCons(ps[0], ps[1..] + [p], k);
        LookupCons(ps[0], ps[1..], k);
      }
    }
  }

  /** The forEach as written, from `{}`. */
  function ByCategoryAsWritten(xs: seq<Expense>): seq<Prop> {
    Fold([], xs)
  }

  function Fold(acc: seq<Prop>, xs: seq<Expense>): seq<Prop>
    decreases |xs|
  {
    if |xs| == 0 then acc else Fold(AddAsWritten(acc, xs[0]), xs[1..])
  }

  /** The numeric view of the corrected entries. */
  function AsProps(es: seq<Summary.Entry>): (ps: seq<Prop>)
    ensures |ps| == |es|
    ensures forall i :: 0 <= i < |es| ==> ps[i] == Prop(es[i].category, Amount(es[i].amount))
  {
    seq(|es|, i requires 0 <= i < |es| => Prop(es[i].category, Amount(es[i].amount)))
  }

  /** Away from the inherited names the code as written agrees with the
      corrected aggregation. */
  lemma {:induction false} AgreesWithoutInheritedNames(acc: seq<Summary.Entry>, xs: seq<Expense>)
    requires forall e :: e in xs ==> !Inherited(e.category)
    ensures Fold(AsProps(acc), xs) == AsProps(Summary.Accumulate(acc, xs))
    decreases |xs|
  {
    if |xs| > 0 {
      AddAgrees(acc, xs[0]);
      assert forall e :: e in xs[1..] ==> e in xs;
      AgreesWithoutInheritedNames(Summary.Add(acc, xs[0]), xs[1..]);
    }
  }

  lemma {:induction false} AddAgrees(acc: seq<Summary.Entry>, e: Expense)
    requires !Inherited(e.category)
    ensures AddAsWritten(AsProps(acc), e) == AsProps(Summary.Add(acc, e))
  {
    if |acc| == 0 {
      assert AsProps(acc) == [];
      assert Summary.Add(acc, e) == [Summary.Entry(e.category, e.amount)];
    } else if acc[0].category == e.category {
      AddAgreesHead(acc, e);
    } else {
      AddAgrees(acc[1..], e);
      AddAgreesTail(acc, e);
    }
  }

  /** The category is the first key: both sides raise that entry in place. */
  lemma AddAgreesHead(acc: seq<Summary.Entry>, e: Expense)
    requires |acc| > 0 && acc[0].category == e.category
    ensures AddAsWritten(AsProps(acc), e) == AsProps(Summary.Add(acc, e))
  {
    var head := Summary.Entry(acc[0].category, acc[0].amount + e.amount);
    assert Summary.Add(acc, e) == [head] + acc[1..];
    AsPropsCons(head, acc[1..]);
  }

  /** The category is not the first key: both sides keep that entry in
      front of the step on the rest. */
  lemma AddAgreesTail(acc: seq<Summary.Entry>, e: Expense)
    requires |acc| > 0 && acc[0].category != e.category
    requires AddAsWritten(AsProps(acc[1..]), e) == AsProps(Summary.Add(acc[1..], e))
    ensures AddAsWritten(AsProps(acc), e) == AsProps(Summary.Add(acc, e))
  {
    var rest := Summary.Add(acc[1..], e);
    assert acc == [acc[0]] + acc[1..];
    AsPropsCons(acc[0], acc[1..]);
    assert Summary.Add(acc, e) == [acc[0]] + rest;
    AsPropsCons(acc[0], rest);
  }

  lemma AsPropsCons(x: Summary.Entry, rest: seq<Summary.Entry>)
    ensures AsProps([x] + rest) == [Prop(x.category, Amount(x.amount))] + AsProps(rest)
  {
  }

  /** An expense of 4.50 filed under "toString" is summed as text rather
      than as 450 cents. */
  lemma ToStringCategoryBecomesText()
    ensures ByCategoryAsWritten([Expense(1, "Coffee", 450, "toString", "2025-01-01")])
         == [Prop("toString", Text)]
    ensures Summary.ByCategory([Expense(1, "Coffee", 450, "toString", "2025-01-01")])
         == [Summary.Entry("toString", 450)]
  {
    var xs := [Expense(1, "Coffee", 450, "toString", "2025-01-01")];
    assert Inherited("toString");
    assert xs[1..] == [];
    assert Summary.Accumulate([], xs) == Summary.Accumulate(Summary.Add([], xs[0]), []);
  }

  /** An expense filed under "__proto__" vanishes from the breakdown, so
      the per-category values no longer add up to the total. */
  lemma ProtoCategoryIsDropped()
    ensures ByCategoryAsWritten([Expense(1, "Coffee", 450, "__proto__", "2025-01-01")]) == []
    ensures Total([Expense(1, "Coffee", 450, "__proto__", "2025-01-01")]) == 450
  {
    assert Inherited("__proto__");
  }
}
