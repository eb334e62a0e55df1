/** Text operations of the Python standard library that the bulletin board
    relies on: str(n), int(s), str.split, str.replace, str.join, and the
    conversion between ASCII text and bytes. */
module Strings {
  import opened Wrappers

  type byte = b: int | 0 <= b < 256

  function Pow10(k: nat): (r: nat)
    ensures r >= 1
  {
    if k == 0 then 1 else 10 * Pow10(k - 1)
  }

  function Min(a: int, b: int): int
  {
    if a < b then a else b
  }

  predicate IsDigit(c: char)
  {
    '0' <= c <= '9'
  }

  predicate AllDigits(s: string)
  {
    forall i :: 0 <= i < |s| ==> IsDigit(s[i])
  }

  /** The ASCII whitespace that int() strips from bytes: space, tab, line
      feed, vertical tab, form feed and carriage return. */
  predicate IsSpace(c: char)
  {
    c == ' ' || 9 <= c as int <= 13
  }

  function DigitChar(d: nat): (c: char)
    requires d < 10
    ensures IsDigit(c)
  {
    ('0' as int + d) as char
  }

  function DigitValue(c: char): (d: nat)
    requires IsDigit(c)
    ensures d < 10
  {
    c as int - '0' as int
  }

  /** str(n) for a non-negative integer: its decimal digits, no leading zero. */
  function Decimal(n: nat): (s: string)
    ensures |s| >= 1 && AllDigits(s)
    decreases n
  {
    if n < 10 then [DigitChar(n)] else Decimal(n / 10) + [DigitChar(n % 10)]
  }

  /** The number a string of decimal digits denotes. */
  function DigitsValue(s: string): nat
    requires AllDigits(s)
  {
    if s == [] then 0 else 10 * DigitsValue(s[..|s| - 1]) + DigitValue(s[|s| - 1])
  }

  /** `k` space characters. */
  function Spaces(k: nat): (s: string)
    ensures |s| == k
    ensures forall i :: 0 <= i < k ==> s[i] == ' '
  {
    seq(k, _ => ' ')
  }

  function TrimLeft(s: string): string
  {
    if s != [] && IsSpace(s[0]) then TrimLeft(s[1..]) else s
  }

  function TrimRight(s: string): string
  {
    if s != [] && IsSpace(s[|s| - 1]) then TrimRight(s[..|s| - 1]) else s
  }

  /** int(s) in base 10: surrounding whitespace is ignored, one optional sign,
      then at least one digit; anything else raises ValueError (None here). */
  function ParseInt(s: string): Option<int>
  {
    var t := TrimRight(TrimLeft(s));
    if |t| > 0 && (t[0] == '+' || t[0] == '-') then
      if |t| > 1 && AllDigits(t[1..]) then
        var v: int := DigitsValue(t[1..]);
        Some(if t[0] == '-' then -v else v)
      else None
    else if |t| > 0 && AllDigits(t) then Some(DigitsValue(t))
    else None
  }

  /** str.replace(a, b) for single characters. */
  function Replace(s: string, a: char, b: char): (r: string)
    ensures |r| == |s|
    ensures forall i :: 0 <= i < |s| ==> r[i] == if s[i] == a then b else s[i]
  {
    seq(|s|, i requires 0 <= i < |s| => if s[i] == a then b else s[i])
  }

  /** str.split(sep) for a single-character separator: the pieces between
      consecutive occurrences of sep, so there is always one more piece than
      there are separators. */
  function Split(s: string, sep: char): (parts: seq<string>)
    ensures |parts| >= 1
  {
    if s == [] then [[]]
    else
      var rest := Split(s[1..], sep);
      if s[0] == sep then [[]] + rest else [[s[0]] + rest[0]] + rest[1..]
  }

  /** sep.join(parts). */
  function Join(parts: seq<string>, sep: string): string
  {
    if |parts| == 0 then []
    else if |parts| == 1 then parts[0]
    else parts[0] + sep + Join(parts[1..], sep)
  }

  predicate IsLatin1(s: string)
  {
    forall i :: 0 <= i < |s| ==> s[i] as int < 256
  }

  /** The bytes of a text whose characters are all below 256 (for ASCII this
      is both its UTF-8 and its Latin-1 encoding). */
  function ToBytes(s: string): (b: seq<byte>)
    requires IsLatin1(s)
    ensures |b| == |s|
  {
    seq(|s|, i requires 0 <= i < |s| => s[i] as int)
  }

  /** The characters bytes stand for, one per byte. */
  function ToChars(b: seq<byte>): (s: string)
    ensures |s| == |b|
  {
    seq(|b|, i requires 0 <= i < |b| => b[i] as char)
  }

  // ---------------------------------------------------------------------
  // Lemmas

  lemma {:induction false} ToCharsToBytes(s: string)
    requires IsLatin1(s)
    ensures ToChars(ToBytes(s)) == s
  {
    var t := ToChars(ToBytes(s));
    assert forall i :: 0 <= i < |s| ==> t[i] == s[i];
  }

  lemma {:induction false} Pow10Grows(k: nat)
    requires k >= 1
    ensures Pow10(k) >= 10
  {
    if k > 1 {
      Pow10Grows(k - 1);
    }
  }

  /** int(str(n)) == n, digit for digit. */
  lemma {:induction false} DecimalValue(n: nat)
    ensures DigitsValue(Decimal(n)) == n
    decreases n
  {
    if n >= 10 {
      DecimalValue(n / 10);
      var s := Decimal(n);
      assert s[..|s| - 1] == Decimal(n / 10);
    } else {
      assert Decimal(n)[..0] == [];
    }
  }

  /** str(n) fits in k characters exactly when n < 10^k. */
  lemma {:induction false} DecimalWidth(n: nat, k: nat)
    requires k >= 1
    ensures |Decimal(n)| <= k <==> n < Pow10(k)
    decreases n
  {
    Pow10Grows(k);
    if n >= 10 {
      assert |Decimal(n)| == |Decimal(n / 10)| + 1;
      if k == 1 {
        assert Pow10(1) == 10;
      } else {
        DecimalWidth(n / 10, k - 1);
        assert Pow10(k) == 10 * Pow10(k - 1);
        assert n / 10 < Pow10(k - 1) <==> n < 10 * Pow10(k - 1);
      }
    }
  }

  /** The value of a concatenation of digit strings. */
  lemma {:induction false} DigitsValueConcat(a: string, b: string)
    requires AllDigits(a) && AllDigits(b)
    ensures AllDigits(a + b)
    ensures DigitsValue(a + b) == DigitsValue(a) * Pow10(|b|) + DigitsValue(b)
    decreases |b|
  {
    assert AllDigits(a + b) by {
      forall i | 0 <= i < |a + b| ensures IsDigit((a + b)[i]) {
        if i >= |a| { assert (a + b)[i] == b[i - |a|]; }
      }
    }
    if b == [] {
      assert a + b == a;
    } else {
      var b' := b[..|b| - 1];
      var d := DigitValue(b[|b| - 1]);
      assert (a + b)[..|a + b| - 1] == a + b';
      assert (a + b)[|a + b| - 1] == b[|b| - 1];
      assert AllDigits(b');
      DigitsValueConcat(a, b');
      assert DigitsValue(a + b) == 10 * DigitsValue(a + b') + d;
      assert DigitsValue(b) == 10 * DigitsValue(b') + d;
      assert Pow10(|b|) == 10 * Pow10(|b'|);
      ShiftDigit(DigitsValue(a), Pow10(|b'|), DigitsValue(b'), d);
    }
  }

  lemma ShiftDigit(x: int, p: int, y: int, d: int)
    ensures 10 * (x * p + y) + d == x * (10 * p) + (10 * y + d)
  {
  }

  lemma {:induction false} TrimRightPadding(d: string, k: nat)
    requires |d| > 0 && !IsSpace(d[|d| - 1])
    ensures TrimRight(d + Spaces(k)) == d
    decreases k
  {
    if k == 0 {
      assert d + Spaces(0) == d;
    } else {
      var s := d + Spaces(k);
      assert s[|s| - 1] == ' ';
      assert s[..|s| - 1] == d + Spaces(k - 1);
      TrimRightPadding(d, k - 1);
    }
  }

  /** int() reads back a digit string followed by any number of spaces. */
  lemma {:induction false} ParseDigitsPadded(d: string, k: nat)
    requires |d| > 0 && AllDigits(d)
    ensures ParseInt(d + Spaces(k)) == Some(DigitsValue(d))
  {
    var s := d + Spaces(k);
    assert s[0] == d[0];
    assert TrimLeft(s) == s;
    assert IsDigit(d[|d| - 1]);
    TrimRightPadding(d, k);
  }

  lemma {:induction false} SplitWithoutSeparator(s: string, sep: char)
    requires sep !in s
    ensures Split(s, sep) == [s]
    decreases |s|
  {
    if s != [] {
      SplitWithoutSeparator(s[1..], sep);
      assert [s[0]] + s[1..] == s;
    }
  }

  /** Splitting at the first separator: a piece free of sep, then the rest. */
  lemma {:induction false} SplitAtFirst(a: string, sep: char, b: string)
    requires sep !in a
    ensures Split(a + [sep] + b, sep) == [a] + Split(b, sep)
    decreases |a|
  {
    var s := a + [sep] + b;
    if a == [] {
      assert s[1..] == b;
    } else {
      assert s[1..] == a[1..] + [sep] + b;
      SplitAtFirst(a[1..], sep, b);
      assert [a[0]] + a[1..] == a;
    }
  }

  /** Replacing a by b and back restores a text in which b did not occur. */
  lemma ReplaceBack(s: string, a: char, b: char)
    requires b !in s
    ensures Replace(Replace(s, a, b), b, a) == s
  {
  }
}
