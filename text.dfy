/** Rendering of numbers and strings the way the upload code puts them on the wire:
    `Number.prototype.toString()` for the integers it prints, and the byte length a
    `File` built from a JavaScript string has (its UTF-8 encoding). */
module Text {

  /** The character for one decimal digit. */
  function Digit(d: nat): (c: char)
    requires d < 10
    ensures '0' <= c <= '9' && (c as int) - ('0' as int) == d
  {
    "0123456789"[d]
  }

  predicate IsDigits(s: string)
  {
    forall i :: 0 <= i < |s| ==> '0' <= s[i] <= '9'
  }

  /** Decimal text of a non-negative integer, as `toString()` gives it: at least one
      digit and no leading zero. */
  function Decimal(n: nat): (s: string)
    ensures |s| >= 1 && IsDigits(s)
    ensures |s| > 1 ==> s[0] != '0'
    decreases n
  {
    if n < 10 then [Digit(n)] else Decimal(n / 10) + [Digit(n % 10)]
  }

  /** The number a string of decimal digits denotes. */
  function DecimalValue(s: string): nat
    requires IsDigits(s)
  {
    if s == [] then 0
    else DecimalValue(s[..|s| - 1]) * 10 + ((s[|s| - 1] as int) - ('0' as int))
  }

  /** Reading the decimal text back gives the number: the rendering loses nothing. */
  lemma {:induction false} DecimalRoundTrip(n: nat)
    ensures DecimalValue(Decimal(n)) == n
    decreases n
  {
    if n >= 10 {
      DecimalRoundTrip(n / 10);
      var s := Decimal(n);
      assert s[..|s| - 1] == Decimal(n / 10);
    }
  }

  /** Two numbers have the same decimal text only if they are equal. */
  lemma DecimalInjective(m: nat, n: nat)
    ensures Decimal(m) == Decimal(n) ==> m == n
  {
    DecimalRoundTrip(m);
    DecimalRoundTrip(n);
  }

  /** `toString()` of an integer that may be negative: a `-` sign exactly for a
      negative number, then the decimal digits of its magnitude. */
  function IntText(x: int): (s: string)
    ensures |s| >= 1 && (s[0] == '-' <==> x < 0)
  {
    if x < 0 then "-" + Decimal(-x) else Decimal(x)
  }

  /** A character that can follow a number's text without being read as part of it. */
  predicate Delimits(q: string)
  {
    q == [] || !('0' <= q[0] <= '9')
  }

  /** The number of decimal digits `s` starts with. */
  function DigitRun(s: string): (n: nat)
    ensures n <= |s|
  {
    if s == [] || !('0' <= s[0] <= '9') then 0 else 1 + DigitRun(s[1..])
  }

  /** Digits followed by a delimiter: the run of leading digits is exactly the digits. */
  lemma {:induction false} DigitRunOfDigits(p: string, q: string)
    requires IsDigits(p) && Delimits(q)
    ensures DigitRun(p + q) == |p|
    decreases |p|
  {
    if p == [] {
      assert p + q == q;
    } else {
      assert (p + q)[0] == p[0] && (p + q)[1..] == p[1..] + q;
      DigitRunOfDigits(p[1..], q);
    }
  }

  /** A digit string followed by a delimiter is read back unambiguously: where two
      such concatenations agree, the digit strings and the rests agree. */
  lemma DigitsPrefix(p1: string, q1: string, p2: string, q2: string)
    requires IsDigits(p1) && IsDigits(p2) && Delimits(q1) && Delimits(q2)
    requires p1 + q1 == p2 + q2
    ensures p1 == p2 && q1 == q2
  {
    DigitRunOfDigits(p1, q1);
    DigitRunOfDigits(p2, q2);
    assert p1 == (p1 + q1)[..|p1|] && p2 == (p2 + q2)[..|p2|];
    assert q1 == (p1 + q1)[|p1|..] && q2 == (p2 + q2)[|p2|..];
  }

  /** A common prefix can be cancelled. */
  lemma CancelPrefix(p: string, a: string, b: string)
    requires p + a == p + b
    ensures a == b
  {
    assert a == (p + a)[|p|..] && b == (p + b)[|p|..];
  }

  /** The text of an integer followed by a delimiter determines both the integer and
      the rest of the string. */
  lemma IntTextPrefix(x: int, q1: string, y: int, q2: string)
    requires Delimits(q1) && Delimits(q2)
    requires IntText(x) + q1 == IntText(y) + q2
    ensures x == y && q1 == q2
  {
    var s1, s2 := IntText(x), IntText(y);
    assert s1[0] == (s1 + q1)[0] == (s2 + q2)[0] == s2[0];
    if x < 0 {
      var d1, d2 := Decimal(-x), Decimal(-y);
      assert s1 + q1 == "-" + (d1 + q1);
      assert s2 + q2 == "-" + (d2 + q2);
      CancelPrefix("-", d1 + q1, d2 + q2);
      DigitsPrefix(d1, q1, d2, q2);
      DecimalInjective(-x, -y);
    } else {
      DigitsPrefix(s1, q1, s2, q2);
      DecimalInjective(x, y);
    }
  }

  /** Two integers have the same `toString()` text only if they are equal. */
  lemma IntTextInjective(x: int, y: int)
    ensures IntText(x) == IntText(y) ==> x == y
  {
    if IntText(x) == IntText(y) {
      assert IntText(x) + [] == IntText(y) + [];
      IntTextPrefix(x, [], y, []);
    }
  }

  /** `toString()` of a boolean. */
  function BoolText(b: bool): (s: string)
    ensures s == "true" <==> b
  {
    if b then "true" else "false"
  }

  /** Number of bytes a code point takes in UTF-8. */
  function Utf8Width(c: char): (w: nat)
    ensures 1 <= w <= 4
    ensures w == 1 <==> (c as int) < 0x80
  {
    if (c as int) < 0x80 then 1
    else if (c as int) < 0x800 then 2
    else if (c as int) < 0x10000 then 3
    else 4
  }

  /** Size in bytes of the `File` built from a text: the length of its UTF-8 encoding. */
  function Utf8Length(s: string): (n: nat)
    ensures |s| <= n <= 4 * |s|
  {
    if s == [] then 0 else Utf8Width(s[0]) + Utf8Length(s[1..])
  }

  /** A text made of ASCII characters takes one byte per character, and only such a
      text does. */
  lemma {:induction false} Utf8LengthAscii(s: string)
    ensures Utf8Length(s) == |s| <==> forall i :: 0 <= i < |s| ==> (s[i] as int) < 0x80
  {
    if s != [] {
      Utf8LengthAscii(s[1..]);
      assert forall i :: 1 <= i < |s| ==> s[i] == s[1..][i - 1];
    }
  }
}
