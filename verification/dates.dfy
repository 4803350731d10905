/** Comparison of `YYYY-MM-DD` date strings. The client subtracts the
    parsed dates; for well-formed ISO dates the sign of that difference is
    the character-by-character order of the strings, which is what this
    module defines and relates to the calendar order. */
module Dates {

  /** Character-by-character order: `a` is no later than `b`. */
  predicate NotAfter(a: string, b: string) {
    |a| == 0 || (|b| > 0 && (a[0] < b[0] || (a[0] == b[0] && NotAfter(a[1..], b[1..]))))
  }

  /** Any two dates compare one way or the other. */
  lemma {:induction false} NotAfterConnected(a: string, b: string)
    ensures NotAfter(a, b) || NotAfter(b, a)
  {
    if |a| > 0 && |b| > 0 && a[0] == b[0] {
      NotAfterConnected(a[1..], b[1..]);
    }
  }

  /** The order chains. */
  lemma {:induction false} NotAfterTransitive(a: string, b: string, c: string)
    requires NotAfter(a, b) && NotAfter(b, c)
    ensures NotAfter(a, c)
  {
    if |a| > 0 && |b| > 0 && |c| > 0 && a[0] == b[0] && b[0] == c[0] {
      NotAfterTransitive(a[1..], b[1..], c[1..]);
    }
  }

  /** Two dates that are each no later than the other are the same string. */
  lemma {:induction false} NotAfterAntisymmetric(a: string, b: string)
    requires NotAfter(a, b) && NotAfter(b, a)
    ensures a == b
  {
    if |a| > 0 && |b| > 0 {
      NotAfterAntisymmetric(a[1..], b[1..]);
      assert a == [a[0]] + a[1..] && b == [b[0]] + b[1..];
    }
  }

  // ---------------------------------------------------------------------
  // Relation to the calendar

  predicate IsDigit(c: char) {
    '0' <= c <= '9'
  }

  predicate AllDigits(s: string) {
    forall i :: 0 <= i < |s| ==> IsDigit(s[i])
  }

  function Pow10(n: nat): (r: nat)
    ensures r >= 1
  {
    if n == 0 then 1 else 10 * Pow10(n - 1)
  }

  /** The decimal value of a digit string. */
  function Num(s: string): (r: nat)
    requires AllDigits(s)
    ensures r < Pow10(|s|)
  {
    if |s| == 0 then 0
    else
      var d, p := (s[0] - '0') as nat, Pow10(|s| - 1);
      var rest := Num(s[1..]);
      MulMonotone(d, 9, p);
      assert Pow10(|s|) == 10 * p;
      d * p + rest
  }

  /** `YYYY-MM-DD`: four digits, dash, two digits, dash, two digits. */
  predicate IsIsoDate(s: string) {
    |s| == 10 && s[4] == '-' && s[7] == '-' && AllDigits(s[..4]) && AllDigits(s[5..7]) && AllDigits(s[8..])
  }

  /** A number that grows with the calendar: year, month and day as the
      decimal digits of one integer. */
  function CalendarKey(s: string): nat
    requires IsIsoDate(s)
  {
    Num(s[..4]) * 10000 + Num(s[5..7]) * 100 + Num(s[8..])
  }

  /** For digit strings of one length the character order is the numeric order. */
  lemma {:induction false} DigitsOrder(a: string, b: string)
    requires |a| == |b| && AllDigits(a) && AllDigits(b)
    ensures NotAfter(a, b) <==> Num(a) <= Num(b)
  {
    if |a| > 0 {
      var p := Pow10(|a| - 1);
      var da, db := (a[0] - '0') as nat, (b[0] - '0') as nat;
      assert AllDigits(a[1..]) && AllDigits(b[1..]);
      var na, nb := Num(a[1..]), Num(b[1..]);
      assert Num(a) == da * p + na;
      assert Num(b) == db * p + nb;
      if a[0] < b[0] {
        LeadingDigitDecides(da, db, p, na, nb);
      } else if b[0] < a[0] {
        LeadingDigitDecides(db, da, p, nb, na);
      } else {
        DigitsOrder(a[1..], b[1..]);
      }
    }
  }

  /** A smaller leading digit makes the smaller number. */
  lemma LeadingDigitDecides(da: nat, db: nat, p: nat, na: nat, nb: nat)
    requires da < db && na < p
    ensures da * p + na < db * p + nb
  {
    MulMonotone(da + 1, db, p);
    assert (da + 1) * p == da * p + p;
  }

  lemma MulMonotone(x: nat, y: nat, p: nat)
    requires x <= y
    ensures x * p <= y * p
  {
  }

  /** Comparing concatenations of equal-length heads: the heads decide
      unless they are equal. */
  lemma {:induction false} NotAfterConcat(p: string, q: string, r: string, t: string)
    requires |p| == |q|
    ensures NotAfter(p + r, q + t) <==> if p == q then NotAfter(r, t) else NotAfter(p, q)
  {
    if |p| > 0 {
      assert (p + r)[1..] == p[1..] + r && (q + t)[1..] == q[1..] + t;
      NotAfterConcat(p[1..], q[1..], r, t);
      if p[0] == q[0] {
        assert p == q <==> p[1..] == q[1..] by {
          assert p == [p[0]] + p[1..] && q == [q[0]] + q[1..];
        }
      }
    } else {
      assert p + r == r && q + t == t;
    }
  }

  /** Equal-length digit strings are equal exactly when their values are. */
  lemma DigitsEqual(a: string, b: string)
    requires |a| == |b| && AllDigits(a) && AllDigits(b)
    ensures a == b <==> Num(a) == Num(b)
  {
    DigitsOrder(a, b);
    DigitsOrder(b, a);
    if Num(a) == Num(b) {
      NotAfterAntisymmetric(a, b);
    }
  }

  /** For well-formed dates the string order used to sort is the calendar order. */
  lemma IsoOrderIsCalendarOrder(a: string, b: string)
    requires IsIsoDate(a) && IsIsoDate(b)
    ensures NotAfter(a, b) <==> CalendarKey(a) <= CalendarKey(b)
  {
    var ya, ma, da := a[..4], a[5..7], a[8..];
    var yb, mb, db := b[..4], b[5..7], b[8..];
    assert a == ya + (a[4..5] + (ma + (a[7..8] + da)));
    assert b == yb + (b[4..5] + (mb + (b[7..8] + db)));
    assert a[4..5] == b[4..5] && a[7..8] == b[7..8];
    NotAfterConcat(ya, yb, a[4..5] + (ma + (a[7..8] + da)), b[4..5] + (mb + (b[7..8] + db)));
    NotAfterConcat(a[4..5], b[4..5], ma + (a[7..8] + da), mb + (b[7..8] + db));
    NotAfterConcat(ma, mb, a[7..8] + da, b[7..8] + db);
    NotAfterConcat(a[7..8], b[7..8], da, db);
    DigitsOrder(ya, yb);
    DigitsOrder(ma, mb);
    DigitsOrder(da, db);
    DigitsEqual(ya, yb);
    DigitsEqual(ma, mb);
    assert Num(ma) < 100 && Num(mb) < 100 && Num(da) < 100 && Num(db) < 100;
  }
}
