/** Decimal digits and the ordering of strings.

    Strings compare code point by code point, a proper prefix first: the
    order of Python's `sorted` on `str` and of SQLite's default (binary)
    collation on UTF-8 text. */
module Text {

  predicate IsDigit(c: char) {
    '0' <= c <= '9'
  }

  predicate AllDigits(s: string) {
    forall i :: 0 <= i < |s| ==> IsDigit(s[i])
  }

  function DigitChar(n: int): (c: char)
    requires 0 <= n <= 9
    ensures IsDigit(c)
    ensures c as int - '0' as int == n
  {
    (n + '0' as int) as char
  }

  function Pow10(n: nat): nat {
    if n == 0 then 1 else 10 * Pow10(n - 1)
  }

  /** `n` in exactly `width` decimal digits with leading zeros, as Python's
      `{n:02d}` and `date.isoformat()` write month, day and year. */
  function Pad(n: nat, width: nat): (s: string)
    requires n < Pow10(width)
    ensures |s| == width
    ensures AllDigits(s)
    decreases width
  {
    if width == 0 then ""
    else
      assert n / 10 < Pow10(width - 1);
      Pad(n / 10, width - 1) + [DigitChar(n % 10)]
  }

  /** The number a string of decimal digits denotes, as `int()` reads it. */
  function DigitsValue(s: string): nat
    requires AllDigits(s)
    decreases |s|
  {
    if |s| == 0 then 0
    else DigitsValue(s[..|s| - 1]) * 10 + (s[|s| - 1] as int - '0' as int)
  }

  /** Reading back a padded number gives the number. */
  lemma {:induction false} PadValue(n: nat, width: nat)
    requires n < Pow10(width)
    ensures DigitsValue(Pad(n, width)) == n
    decreases width
  {
    if width > 0 {
      var s := Pad(n, width);
      assert n / 10 < Pow10(width - 1);
      assert s[..|s| - 1] == Pad(n / 10, width - 1);
      PadValue(n / 10, width - 1);
    }
  }

  /** Lexicographic order on strings. */
  predicate StringLe(a: string, b: string)
    decreases |a|
  {
    |a| == 0 || (|b| > 0 && (a[0] < b[0] || (a[0] == b[0] && StringLe(a[1..], b[1..]))))
  }

  lemma {:induction false} StringLeTotal(a: string, b: string)
    ensures StringLe(a, b) || StringLe(b, a)
    decreases |a|
  {
    if |a| > 0 && |b| > 0 && a[0] == b[0] {
      StringLeTotal(a[1..], b[1..]);
    }
  }

  lemma {:induction false} StringLeTransitive(a: string, b: string, c: string)
    requires StringLe(a, b) && StringLe(b, c)
    ensures StringLe(a, c)
    decreases |a|
  {
    if |a| > 0 && a[0] == b[0] && b[0] == c[0] {
      StringLeTransitive(a[1..], b[1..], c[1..]);
    }
  }

  lemma {:induction false} StringLeAntisymmetric(a: string, b: string)
    requires StringLe(a, b) && StringLe(b, a)
    ensures a == b
    decreases |a|
  {
    if |a| > 0 {
      StringLeAntisymmetric(a[1..], b[1..]);
      assert a == [a[0]] + a[1..] && b == [b[0]] + b[1..];
    }
  }

  /** Comparing two strings that start with prefixes of one length: the
      prefixes decide unless they are equal. */
  lemma {:induction false} StringLeConcat(p: string, s: string, q: string, t: string)
    requires |p| == |q|
    ensures StringLe(p + s, q + t) <==> (p == q && StringLe(s, t)) || (p != q && StringLe(p, q))
    decreases |p|
  {
    if |p| > 0 {
      assert (p + s)[0] == p[0] && (q + t)[0] == q[0];
      assert (p + s)[1..] == p[1..] + s;
      assert (q + t)[1..] == q[1..] + t;
      StringLeConcat(p[1..], s, q[1..], t);
      assert p == [p[0]] + p[1..] && q == [q[0]] + q[1..];
    } else {
      assert p + s == s && q + t == t;
    }
  }

  /** Padded numbers of one width compare as text the way they compare as numbers. */
  lemma {:induction false} PadOrder(x: nat, y: nat, width: nat)
    requires x < Pow10(width) && y < Pow10(width)
    ensures StringLe(Pad(x, width), Pad(y, width)) <==> x <= y
    decreases width
  {
    if width > 0 {
      assert x / 10 < Pow10(width - 1) && y / 10 < Pow10(width - 1);
      var px, py := Pad(x / 10, width - 1), Pad(y / 10, width - 1);
      var cx, cy := [DigitChar(x % 10)], [DigitChar(y % 10)];
      StringLeConcat(px, cx, py, cy);
      PadOrder(x / 10, y / 10, width - 1);
      PadValue(x / 10, width - 1);
      PadValue(y / 10, width - 1);
      assert px == py <==> x / 10 == y / 10;
      assert StringLe(cx, cy) <==> x % 10 <= y % 10;
    }
  }
}
