/** Why the records can be sorted by their date text: for ISO `YYYY-MM-DD`
    dates, the `<` order on strings is the chronological order of the
    (year, month, day) they name. Months and days are read as two-digit
    numbers; whether they name a real calendar day is not checked. */
module IsoDate {
  import opened Text

  /** A smaller leading digit decides, whatever follows. */
  lemma LeadingDigitDecides(du: int, dv: int, ru: int, rv: int, p: nat)
    requires du < dv && 0 <= ru < p && 0 <= rv
    ensures du * p + ru < dv * p + rv
  {
    MultiplyMonotone(du + 1, dv, p);
    assert (du + 1) * p == du * p + p;
  }

  /** Text order and numeric order agree on digit strings of one length. */
  lemma {:induction false} DigitsOrder(u: string, v: string)
    requires AllDigits(u) && AllDigits(v) && |u| == |v|
    ensures LexLess(u, v) <==> DigitsValue(u) < DigitsValue(v)
  {
    if u != [] {
      var du, dv, p := u[0] as int - '0' as int, v[0] as int - '0' as int, Pow10(|u| - 1);
      assert DigitsValue(u) == du * p + DigitsValue(u[1..]);
      assert DigitsValue(v) == dv * p + DigitsValue(v[1..]);
      if du == dv {
        DigitsOrder(u[1..], v[1..]);
      } else if du < dv {
        assert LexLess(u, v);
        LeadingDigitDecides(du, dv, DigitsValue(u[1..]), DigitsValue(v[1..]), p);
      } else {
        assert LexLess(v, u);
        LeadingDigitDecides(dv, du, DigitsValue(v[1..]), DigitsValue(u[1..]), p);
        LexLessIrreflexive(u);
        if LexLess(u, v) { LexLessTransitive(u, v, u); }
      }
    }
  }

  /** Digit strings of one length with equal values are equal. */
  lemma DigitsValueInjective(u: string, v: string)
    requires AllDigits(u) && AllDigits(v) && |u| == |v|
    requires DigitsValue(u) == DigitsValue(v)
    ensures u == v
  {
    LexLessTrichotomy(u, v);
    DigitsOrder(u, v);
    DigitsOrder(v, u);
  }

  /** Comparing concatenations whose first parts have one length compares the
      first parts, and the second parts only on a tie. */
  lemma {:induction false} LexLessAppend(u1: string, u2: string, v1: string, v2: string)
    requires |u1| == |v1|
    ensures LexLess(u1 + u2, v1 + v2) <==> LexLess(u1, v1) || (u1 == v1 && LexLess(u2, v2))
  {
    if u1 == [] {
      assert u1 + u2 == u2 && v1 + v2 == v2;
    } else {
      assert (u1 + u2)[0] == u1[0] && (v1 + v2)[0] == v1[0];
      assert (u1 + u2)[1..] == u1[1..] + u2 && (v1 + v2)[1..] == v1[1..] + v2;
      LexLessAppend(u1[1..], u2, v1[1..], v2);
      if u1[0] == v1[0] && u1[1..] == v1[1..] {
        assert u1 == [u1[0]] + u1[1..] && v1 == [v1[0]] + v1[1..];
      }
    }
  }

  /** A well-formed `YYYY-MM-DD` date. */
  predicate IsIsoDate(s: string) {
    |s| == 10 && s[4] == '-' && s[7] == '-' &&
    AllDigits(s[..4]) && AllDigits(s[5..7]) && AllDigits(s[8..])
  }

  function Year(s: string): nat requires IsIsoDate(s) { DigitsValue(s[..4]) }
  function Month(s: string): nat requires IsIsoDate(s) { DigitsValue(s[5..7]) }
  function Day(s: string): nat requires IsIsoDate(s) { DigitsValue(s[8..]) }

  /** Date `a` is an earlier calendar day than date `b`. */
  predicate ChronologicallyBefore(a: string, b: string)
    requires IsIsoDate(a) && IsIsoDate(b)
  {
    Year(a) < Year(b) ||
    (Year(a) == Year(b) && (Month(a) < Month(b) || (Month(a) == Month(b) && Day(a) < Day(b))))
  }

  /** For ISO dates, text order is chronological order. */
  lemma IsoTextOrderIsChronological(a: string, b: string)
    requires IsIsoDate(a) && IsIsoDate(b)
    ensures LexLess(a, b) <==> ChronologicallyBefore(a, b)
  {
    assert a == a[..4] + (a[4..5] + (a[5..7] + (a[7..8] + a[8..])));
    assert b == b[..4] + (b[4..5] + (b[5..7] + (b[7..8] + b[8..])));
    assert a[4..5] == b[4..5] && a[7..8] == b[7..8];
    LexLessAppend(a[..4], a[4..5] + (a[5..7] + (a[7..8] + a[8..])), b[..4], b[4..5] + (b[5..7] + (b[7..8] + b[8..])));
    LexLessAppend(a[4..5], a[5..7] + (a[7..8] + a[8..]), b[4..5], b[5..7] + (b[7..8] + b[8..]));
    LexLessAppend(a[5..7], a[7..8] + a[8..], b[5..7], b[7..8] + b[8..]);
    LexLessAppend(a[7..8], a[8..], b[7..8], b[8..]);
    LexLessIrreflexive(a[4..5]);
    LexLessIrreflexive(a[7..8]);
    DigitsOrder(a[..4], b[..4]);
    DigitsOrder(a[5..7], b[5..7]);
    DigitsOrder(a[8..], b[8..]);
    if Year(a) == Year(b) { DigitsValueInjective(a[..4], b[..4]); }
    if Month(a) == Month(b) { DigitsValueInjective(a[5..7], b[5..7]); }
  }
}
