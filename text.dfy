/**
 * The bits of JavaScript text handling the tracker relies on: writing a
 * whole number in decimal (template literals), `parseInt` on a decimal
 * text, and `split(c)[0]` / the part after the first separator.
 */
module Text {

  predicate IsDigit(c: char) {
    '0' <= c <= '9'
  }

  predicate AllDigits(s: string) {
    forall i :: 0 <= i < |s| ==> IsDigit(s[i])
  }

  function DigitChar(d: nat): (c: char)
    requires d < 10
    ensures IsDigit(c) && DigitValue(c) == d
  {
    (48 + d) as char
  }

  /** The value of a decimal digit; any other character reads as 0. */
  function DigitValue(c: char): nat {
    if IsDigit(c) then (c as int) - 48 else 0
  }

  /** The decimal text of `n`, with no leading zero: what `${n}` prints. */
  function NatToString(n: nat): (r: string)
    ensures |r| >= 1 && AllDigits(r)
    ensures |r| > 1 ==> r[0] != '0'
    decreases n
  {
    if n < 10 then [DigitChar(n)] else NatToString(n / 10) + [DigitChar(n % 10)]
  }

  /** The number a run of decimal digits denotes (read left to right). */
  function DecimalValue(s: string): nat {
    if s == [] then 0 else DecimalValue(s[..|s| - 1]) * 10 + DigitValue(s[|s| - 1])
  }

  /** Reading back the decimal text of a number gives the number. */
  lemma {:induction false} DecimalRoundTrip(n: nat)
    ensures DecimalValue(NatToString(n)) == n
    decreases n
  {
    if n >= 10 {
      var t := NatToString(n / 10);
      var s := t + [DigitChar(n % 10)];
      assert s[..|s| - 1] == t;
      DecimalRoundTrip(n / 10);
    }
  }

  /** The decimal text of a number has no letter, colon or space in it. */
  lemma NatToStringHasNo(n: nat, c: char)
    requires !IsDigit(c)
    ensures c !in NatToString(n)
  {
  }

  /** The longest prefix of `s` made of digits. */
  function LeadingDigits(s: string): (r: string)
    ensures r <= s && AllDigits(r)
    ensures |r| < |s| ==> !IsDigit(s[|r|])
  {
    if s == [] || !IsDigit(s[0]) then [] else [s[0]] + LeadingDigits(s[1..])
  }

  /** A run of digits is its own leading digits. */
  lemma {:induction false} LeadingDigitsOfDigits(s: string)
    requires AllDigits(s)
    ensures LeadingDigits(s) == s
  {
    if s != [] {
      LeadingDigitsOfDigits(s[1..]);
      assert s == [s[0]] + s[1..];
    }
  }

  /**
   * `parseInt` on form text: the value of its leading digits. Text that does
   * not start with a digit reads as 0 here (JavaScript gives NaN).
   */
  function ParseInt(s: string): nat {
    DecimalValue(LeadingDigits(s))
  }

  /** `parseInt` reads back what `${n}` printed. */
  lemma ParseIntRoundTrip(n: nat)
    ensures ParseInt(NatToString(n)) == n
  {
    var s := NatToString(n);
    var r := LeadingDigits(s);
    assert r == s;
    DecimalRoundTrip(n);
  }

  /** The text of `s` before the first `c`; all of `s` when it has none (`s.split(c)[0]`). */
  function UpTo(s: string, c: char): (r: string)
    ensures r <= s && c !in r
    ensures |r| < |s| ==> s[|r|] == c
  {
    if s == [] || s[0] == c then [] else [s[0]] + UpTo(s[1..], c)
  }

  /** The text of `s` after its first `c`. */
  function AfterFirst(s: string, c: char): (r: string)
    requires c in s
    ensures s == UpTo(s, c) + [c] + r
  {
    var k := |UpTo(s, c)|;
    assert k < |s|;
    assert s == s[..k] + [c] + s[k + 1..];
    s[k + 1..]
  }

  /** Splitting at the first `c` of `a + [c] + b`, when `a` has no `c`, gives back `a` and `b`. */
  lemma {:induction false} SplitAtFirst(a: string, c: char, b: string)
    requires c !in a
    ensures UpTo(a + [c] + b, c) == a
    ensures AfterFirst(a + [c] + b, c) == b
  {
    UpToPrefix(a, [c] + b, c);
    assert a + [c] + b == a + ([c] + b);
    assert UpTo([c] + b, c) == [];
    assert UpTo(a + [c] + b, c) == a;
  }

  /** When `a` has no `c`, the first `c` of `a + b` is the first `c` of `b`. */
  lemma {:induction false} UpToPrefix(a: string, b: string, c: char)
    requires c !in a
    ensures UpTo(a + b, c) == a + UpTo(b, c)
  {
    if a != [] {
      assert (a + b)[0] == a[0];
      assert (a + b)[1..] == a[1..] + b;
      UpToPrefix(a[1..], b, c);
    } else {
      assert a + b == b;
    }
  }
}
