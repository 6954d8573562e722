/** String helpers the application takes from JavaScript's String methods:
    case mapping, `includes`, number-to-string, and the `<` order on strings. */
module Text {

  // ---------------------------------------------------------------------
  // Case mapping (ASCII letters only)
  // ---------------------------------------------------------------------

  function UpperChar(c: char): (u: char)
    ensures 'a' <= c <= 'z' ==> 'A' <= u <= 'Z' && u as int == c as int - 32
    ensures !('a' <= c <= 'z') ==> u == c
  {
    if 'a' <= c <= 'z' then (c as int - 32) as char else c
  }

  function LowerChar(c: char): (l: char)
    ensures 'A' <= c <= 'Z' ==> 'a' <= l <= 'z' && l as int == c as int + 32
    ensures !('A' <= c <= 'Z') ==> l == c
  {
    if 'A' <= c <= 'Z' then (c as int + 32) as char else c
  }

  /** `String.prototype.toUpperCase`, restricted to ASCII letters. */
  function ToUpper(s: string): (r: string)
    ensures |r| == |s|
    ensures forall i :: 0 <= i < |s| ==> r[i] == UpperChar(s[i])
  {
    if s == [] then [] else [UpperChar(s[0])] + ToUpper(s[1..])
  }

  /** `String.prototype.toLowerCase`, restricted to ASCII letters. */
  function ToLower(s: string): (r: string)
    ensures |r| == |s|
    ensures forall i :: 0 <= i < |s| ==> r[i] == LowerChar(s[i])
  {
    if s == [] then [] else [LowerChar(s[0])] + ToLower(s[1..])
  }

  /** Lower-casing forgets an earlier upper-casing: both fold a letter to the same key. */
  lemma LowerOfUpper(s: string)
    ensures ToLower(ToUpper(s)) == ToLower(s)
  {
    var a, b := ToLower(ToUpper(s)), ToLower(s);
    assert |a| == |b|;
    forall i | 0 <= i < |s| ensures a[i] == b[i] {
      assert a[i] == LowerChar(UpperChar(s[i]));
    }
  }

  // ---------------------------------------------------------------------
  // Substring search
  // ---------------------------------------------------------------------

  predicate StartsWith(s: string, prefix: string) {
    |prefix| <= |s| && s[..|prefix|] == prefix
  }

  /** `hay.includes(needle)`, searching from the left. */
  predicate Contains(hay: string, needle: string)
    ensures Contains(hay, needle) ==> |needle| <= |hay|
    ensures needle == [] ==> Contains(hay, needle)
    decreases |hay|
  {
    StartsWith(hay, needle) || (hay != [] && Contains(hay[1..], needle))
  }

  /** The needle occurs in the haystack starting at offset `i`. */
  predicate OccursAt(hay: string, needle: string, i: int) {
    0 <= i && i + |needle| <= |hay| && hay[i..i + |needle|] == needle
  }

  /** `Contains` holds exactly when the needle occurs at some offset of the haystack. */
  lemma {:induction false} ContainsAt(hay: string, needle: string)
    ensures Contains(hay, needle) <==> exists i :: OccursAt(hay, needle, i)
    decreases |hay|
  {
    if hay == [] {
      if exists i :: OccursAt(hay, needle, i) {
        var i :| OccursAt(hay, needle, i);
        assert StartsWith(hay, needle);
      }
      if StartsWith(hay, needle) {
        assert OccursAt(hay, needle, 0);
      }
    } else {
      ContainsAt(hay[1..], needle);
      if exists i :: OccursAt(hay, needle, i) {
        var i :| OccursAt(hay, needle, i);
        if i > 0 {
          assert hay[1..][i - 1..i - 1 + |needle|] == needle;
          assert OccursAt(hay[1..], needle, i - 1);
        }
      }
      if StartsWith(hay, needle) {
        assert OccursAt(hay, needle, 0);
      } else if Contains(hay[1..], needle) {
        var i :| OccursAt(hay[1..], needle, i);
        assert hay[i + 1..i + 1 + |needle|] == needle;
        assert OccursAt(hay, needle, i + 1);
      }
    }
  }

  // ---------------------------------------------------------------------
  // Number to string
  // ---------------------------------------------------------------------

  function DigitChar(d: nat): (c: char)
    requires d < 10
    ensures '0' <= c <= '9'
  {
    ('0' as int + d) as char
  }

  /** The decimal notation of a natural number, as a template literal prints it. */
  function DecimalString(n: nat): (s: string)
    ensures 1 <= |s|
    ensures forall i :: 0 <= i < |s| ==> '0' <= s[i] <= '9'
    ensures n == 0 ==> s == "0"
    ensures n > 0 ==> s[0] != '0'
  {
    if n < 10 then [DigitChar(n)] else DecimalString(n / 10) + [DigitChar(n % 10)]
  }

  // ---------------------------------------------------------------------
  // Digit strings and their values
  // ---------------------------------------------------------------------

  predicate IsDigit(c: char) {
    '0' <= c <= '9'
  }

  predicate AllDigits(s: string) {
    forall i :: 0 <= i < |s| ==> IsDigit(s[i])
  }

  function Pow10(n: nat): (p: nat)
    ensures p >= 1
  {
    if n == 0 then 1 else 10 * Pow10(n - 1)
  }

  /** The number a string of decimal digits denotes, most significant first. */
  function DigitsValue(s: string): (v: nat)
    requires AllDigits(s)
    ensures v < Pow10(|s|)
  {
    if s == [] then 0
    else
      var d, p := s[0] as int - '0' as int, Pow10(|s| - 1);
      assert d * p + p <= 10 * p by { MultiplyMonotone(d + 1, 10, p); }
      d * p + DigitsValue(s[1..])
  }

  lemma MultiplyMonotone(a: int, b: int, p: nat)
    requires a <= b
    ensures a * p <= b * p
  {
  }


  lemma TimesTen(d: int, p: int)
    ensures d * (10 * p) == 10 * (d * p)
  {
    calc {
      d * (10 * p);
      d * (p + p + p + p + p + p + p + p + p + p);
      10 * (d * p);
    }
  }

  /** Appending a digit multiplies the value by ten and adds the digit. */
  lemma {:induction false} DigitsValueSnoc(s: string, c: char)
    requires AllDigits(s) && IsDigit(c)
    ensures AllDigits(s + [c])
    ensures DigitsValue(s + [c]) == 10 * DigitsValue(s) + (c as int - '0' as int)
    decreases |s|
  {
    var t := s + [c];
    forall i | 0 <= i < |t| ensures IsDigit(t[i]) {
      if i < |s| { assert t[i] == s[i]; }
    }
    if s == [] {
      assert t[1..] == [];
    } else {
      assert t[0] == s[0] && t[1..] == s[1..] + [c];
      DigitsValueSnoc(s[1..], c);
      var d, p, e := s[0] as int - '0' as int, Pow10(|s| - 1), c as int - '0' as int;
      calc {
        DigitsValue(t);
        d * Pow10(|s|) + DigitsValue(s[1..] + [c]);
        d * (10 * p) + (10 * DigitsValue(s[1..]) + e);
        { TimesTen(d, p); }
        10 * (d * p + DigitsValue(s[1..])) + e;
        10 * DigitsValue(s) + e;
      }
    }
  }

  /** The decimal text of a number is a digit string denoting that number. */
  lemma {:induction false} DecimalStringValue(n: nat)
    ensures AllDigits(DecimalString(n)) && DigitsValue(DecimalString(n)) == n
    decreases n
  {
    if n < 10 {
      assert DecimalString(n)[1..] == [];
    } else {
      DecimalStringValue(n / 10);
      DigitsValueSnoc(DecimalString(n / 10), DigitChar(n % 10));
    }
  }


  // ---------------------------------------------------------------------
  // The `<` order on strings
  // ---------------------------------------------------------------------

  /** JavaScript's `a < b` on strings: lexicographic by character code, a proper
      prefix coming first. */
  predicate LexLess(a: string, b: string)
    ensures LexLess(a, b) ==> b != [] && (a == [] || a[0] <= b[0])
    ensures |a| < |b| && a == b[..|a|] ==> LexLess(a, b)
    decreases |a|
  {
    if b == [] then false
    else if a == [] then true
    else if a[0] != b[0] then a[0] < b[0]
    else LexLess(a[1..], b[1..])
  }

  lemma {:induction false} LexLessIrreflexive(a: string)
    ensures !LexLess(a, a)
    decreases |a|
  {
    if a != [] {
      LexLessIrreflexive(a[1..]);
    }
  }

  lemma {:induction false} LexLessTransitive(a: string, b: string, c: string)
    requires LexLess(a, b) && LexLess(b, c)
    ensures LexLess(a, c)
    decreases |a|
  {
    if a != [] && a[0] == b[0] && b[0] == c[0] {
      LexLessTransitive(a[1..], b[1..], c[1..]);
    }
  }

  lemma {:induction false} LexLessTrichotomy(a: string, b: string)
    ensures a == b || LexLess(a, b) || LexLess(b, a)
    decreases |a|
  {
    if a != [] && b != [] && a[0] == b[0] {
      LexLessTrichotomy(a[1..], b[1..]);
      if a[1..] == b[1..] {
        assert a == [a[0]] + a[1..] && b == [b[0]] + b[1..];
      }
    }
  }

  lemma {:induction false} LexLessAsymmetric(a: string, b: string)
    requires LexLess(a, b)
    ensures !LexLess(b, a)
    decreases |a|
  {
    if a != [] && a[0] == b[0] {
      LexLessAsymmetric(a[1..], b[1..]);
    }
  }

  /** A shared prefix does not change the order. */
  lemma {:induction false} LexLessCommonPrefix(p: string, a: string, b: string)
    requires LexLess(a, b)
    ensures LexLess(p + a, p + b)
    decreases |p|
  {
    if p == [] {
      assert p + a == a && p + b == b;
    } else {
      assert (p + a)[0] == p[0] == (p + b)[0];
      assert (p + a)[1..] == p[1..] + a;
      assert (p + b)[1..] == p[1..] + b;
      LexLessCommonPrefix(p[1..], a, b);
    }
  }

  /** "Not later than" is transitive: the order is total. */
  lemma NotLessTransitive(a: string, b: string, c: string)
    requires !LexLess(a, b) && !LexLess(b, c)
    ensures !LexLess(a, c)
  {
    if LexLess(a, c) {
      LexLessTrichotomy(b, c);
      if b == c {
        assert false;
      } else {
        LexLessTransitive(a, c, b);
        assert false;
      }
    }
  }
}
