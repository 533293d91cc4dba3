/**
 * The small pieces of Python string handling the scripts rely on: decimal
 * formatting with `%d` and `%02d`, digit strings as `strptime` reads them,
 * `str.split(sep)` and `str.strip()`.
 */
module Text {

  predicate IsDigit(c: char) {
    '0' <= c <= '9'
  }

  predicate AllDigits(s: string) {
    forall i :: 0 <= i < |s| ==> IsDigit(s[i])
  }

  function DigitValue(c: char): nat
    requires IsDigit(c)
  {
    c as int - '0' as int
  }

  function DigitChar(n: nat): (c: char)
    requires n < 10
    ensures IsDigit(c) && DigitValue(c) == n
  {
    ('0' as int + n) as char
  }

  /** The number a string of decimal digits denotes (leading zeros allowed). */
  function DigitsValue(s: string): nat
    requires AllDigits(s)
  {
    if s == [] then 0 else DigitsValue(s[..|s| - 1]) * 10 + DigitValue(s[|s| - 1])
  }

  /** `"%d" % n` for `n >= 0`. */
  function NatToString(n: nat): (s: string)
    ensures |s| >= 1 && AllDigits(s)
  {
    if n < 10 then [DigitChar(n)] else NatToString(n / 10) + [DigitChar(n % 10)]
  }

  /** `"%d"` gives back the number it formats, without leading zeros. */
  lemma {:induction false} NatToStringValue(n: nat)
    ensures DigitsValue(NatToString(n)) == n
    ensures NatToString(n)[0] != '0' || n == 0
    ensures n < 10 <==> |NatToString(n)| == 1
  {
    if n >= 10 {
      NatToStringValue(n / 10);
      var s := NatToString(n);
      assert s[..|s| - 1] == NatToString(n / 10);
    }
  }

  /** `"%d" % i` for any integer. */
  function IntToString(i: int): (s: string)
    ensures |s| >= 1
    ensures i < 0 <==> s[0] == '-'
  {
    if i < 0 then "-" + NatToString(-i) else NatToString(i)
  }

  /** Left-pads `s` with zeros to at least `width` characters. */
  function ZeroPad(s: string, width: nat): (r: string)
    ensures |r| == if |s| >= width then |s| else width
    ensures AllDigits(s) ==> AllDigits(r)
    decreases width - |s|
  {
    if |s| >= width then s else ZeroPad("0" + s, width)
  }

  /** A leading zero does not change the value of a digit string. */
  lemma {:induction false} LeadingZeroValue(s: string)
    requires AllDigits(s)
    ensures DigitsValue("0" + s) == DigitsValue(s)
    decreases |s|
  {
    if s != [] {
      LeadingZeroValue(s[..|s| - 1]);
      assert ("0" + s)[..|s|] == "0" + s[..|s| - 1];
    }
  }

  lemma {:induction false} ZeroPadValue(s: string, width: nat)
    requires AllDigits(s)
    ensures DigitsValue(ZeroPad(s, width)) == DigitsValue(s)
    decreases width - |s|
  {
    if |s| < width {
      LeadingZeroValue(s);
      ZeroPadValue("0" + s, width);
    }
  }

  /** `"%02d" % n` for `n >= 0`. */
  function Pad2(n: nat): (s: string)
    ensures |s| >= 2 && AllDigits(s)
  {
    ZeroPad(NatToString(n), 2)
  }

  /** `"%02d"` always reads back as the number it formats, and has exactly two digits below 100. */
  lemma Pad2Value(n: nat)
    ensures DigitsValue(Pad2(n)) == n
    ensures n < 100 ==> |Pad2(n)| == 2
  {
    NatToStringValue(n);
    ZeroPadValue(NatToString(n), 2);
    if 10 <= n < 100 {
      NatToStringValue(n / 10);
    }
  }

  /** The value of a two-digit string, digit by digit. */
  lemma TwoDigitsValue(s: string)
    requires |s| == 2 && AllDigits(s)
    ensures DigitsValue(s) == 10 * DigitValue(s[0]) + DigitValue(s[1])
  {
    var p := s[..1];
    assert p[..0] == [] && p[0] == s[0];
    assert DigitsValue(p) == DigitValue(s[0]);
  }

  /** The value of a four-digit string is below 10000. */
  lemma FourDigitsBound(s: string)
    requires |s| == 4 && AllDigits(s)
    ensures DigitsValue(s) < 10000
  {
    var p := s[..3];
    assert p[..2] == s[..2];
    TwoDigitsValue(s[..2]);
    assert DigitsValue(p) < 1000;
  }

  /** Fewer than four digits denote less than 1000. */
  lemma ShortDigitsBound(s: string)
    requires AllDigits(s)
    ensures |s| <= 3 ==> DigitsValue(s) < 1000
  {
    if |s| == 3 {
      assert s[..2] == s[..|s| - 1];
      TwoDigitsValue(s[..2]);
    } else if |s| == 2 {
      TwoDigitsValue(s);
    } else if |s| == 1 {
      assert s[..0] == [];
    }
  }

  /** `"%d"` of a number below 10000 has at most four digits, so `"%04d"` pads it to exactly four. */
  lemma NatToStringShort(n: nat)
    requires n < 10000
    ensures |NatToString(n)| <= 4
  {
    if n >= 10 {
      var a := n / 10;
      assert |NatToString(n)| == |NatToString(a)| + 1;
      if a >= 10 {
        var b := a / 10;
        assert |NatToString(a)| == |NatToString(b)| + 1;
        if b >= 10 {
          assert |NatToString(b)| == |NatToString(b / 10)| + 1;
          assert b / 10 < 10;
        }
      }
    }
  }

  /** `str.split(sep)`: the pieces between separators, empty ones included. */
  function Split(s: string, sep: char): (parts: seq<string>)
    ensures |parts| >= 1
  {
    if s == [] then [""]
    else
      var rest := Split(s[1..], sep);
      if s[0] == sep then [""] + rest else [[s[0]] + rest[0]] + rest[1..]
  }

  /** `sep.join(parts)`. */
  function Join(parts: seq<string>, sep: char): string
    requires |parts| >= 1
  {
    if |parts| == 1 then parts[0] else parts[0] + [sep] + Join(parts[1..], sep)
  }

  /** Splitting loses nothing: joining the pieces again gives the string back, and no piece holds the separator. */
  lemma {:induction false} SplitJoin(s: string, sep: char)
    ensures Join(Split(s, sep), sep) == s
    ensures forall k :: 0 <= k < |Split(s, sep)| ==> sep !in Split(s, sep)[k]
  {
    if s != [] {
      SplitJoin(s[1..], sep);
      var rest := Split(s[1..], sep);
      if s[0] != sep && |rest| > 1 {
        assert Split(s, sep)[1..] == rest[1..];
      }
    }
  }

  /** A string that holds one separator splits into the text before it and the text after it. */
  lemma SplitAtSeparator(a: string, b: string, sep: char)
    requires sep !in a && sep !in b
    ensures Split(a + [sep] + b, sep) == [a, b]
  {
    SplitAtSeparatorPrefix(a, b, sep);
    SplitWithoutSeparator(b, sep);
  }

  lemma {:induction false} SplitWithoutSeparator(s: string, sep: char)
    requires sep !in s
    ensures Split(s, sep) == [s]
  {
    if s != [] {
      SplitWithoutSeparator(s[1..], sep);
      assert [s[0]] + s[1..] == s;
    }
  }

  /** Three pieces joined by a separator. */
  lemma JoinThree(parts: seq<string>, sep: char)
    requires |parts| == 3
    ensures Join(parts, sep) == parts[0] + [sep] + parts[1] + [sep] + parts[2]
  {
    var tail := parts[1..];
    assert tail[1..] == [parts[2]];
    assert Join(tail, sep) == parts[1] + [sep] + parts[2];
    assert Join(parts, sep) == parts[0] + [sep] + (parts[1] + [sep] + parts[2]);
  }

  /** Three pieces joined by a separator none of them holds split back into those pieces. */
  lemma SplitThree(a: string, b: string, c: string, sep: char)
    requires sep !in a && sep !in b && sep !in c
    ensures Split(a + [sep] + b + [sep] + c, sep) == [a, b, c]
  {
    SplitAtSeparator(b, c, sep);
    SplitAtSeparatorPrefix(a, b + [sep] + c, sep);
    assert a + [sep] + b + [sep] + c == a + [sep] + (b + [sep] + c);
  }

  /** Splitting at the first separator: the text before it, then the pieces of the rest. */
  lemma {:induction false} SplitAtSeparatorPrefix(a: string, rest: string, sep: char)
    requires sep !in a
    ensures Split(a + [sep] + rest, sep) == [a] + Split(rest, sep)
  {
    if a != [] {
      SplitAtSeparatorPrefix(a[1..], rest, sep);
      assert (a + [sep] + rest)[1..] == a[1..] + [sep] + rest;
      assert [a[0]] + a[1..] == a;
    } else {
      assert a + [sep] + rest == [sep] + rest;
    }
  }

  /** The characters `str.isspace()` accepts, which `str.strip()` removes. */
  predicate IsSpace(c: char) {
    c == ' ' || '\t' <= c <= '\r' || '\U{1c}' <= c <= '\U{1f}' || c == '\U{85}' || c == '\U{a0}'
    || c == '\U{1680}' || '\U{2000}' <= c <= '\U{200a}' || c == '\U{2028}' || c == '\U{2029}'
    || c == '\U{202f}' || c == '\U{205f}' || c == '\U{3000}'
  }

  /** Every character of `s[lo..hi]` is whitespace. */
  predicate SpaceBetween(s: string, lo: int, hi: int)
    requires 0 <= lo <= hi <= |s|
  {
    forall t :: lo <= t < hi ==> IsSpace(s[t])
  }

  /** Where the whitespace run starting at `i` ends. */
  function SkipSpaces(s: string, i: nat): (k: nat)
    requires i <= |s|
    ensures i <= k <= |s| && SpaceBetween(s, i, k)
    ensures k == |s| || !IsSpace(s[k])
    decreases |s| - i
  {
    if i < |s| && IsSpace(s[i]) then SkipSpaces(s, i + 1) else i
  }

  /** Where the whitespace run ending at `j` starts, going no further left than `lo`. */
  function BackSpaces(s: string, lo: nat, j: nat): (k: nat)
    requires lo <= j <= |s|
    ensures lo <= k <= j && SpaceBetween(s, k, j)
    ensures k == lo || !IsSpace(s[k - 1])
    decreases j
  {
    if lo < j && IsSpace(s[j - 1]) then BackSpaces(s, lo, j - 1) else j
  }

  /** `str.lstrip()`. */
  function StripLeft(s: string): string {
    s[SkipSpaces(s, 0)..]
  }

  /** `str.rstrip()`. */
  function StripRight(s: string): string {
    s[..BackSpaces(s, 0, |s|)]
  }

  /** `str.strip()`: `rstrip` after `lstrip`. */
  function Strip(s: string): string {
    StripRight(StripLeft(s))
  }

  /**
   * What `strip` keeps: the run `s[i..j]` of `s` with only whitespace cut off on
   * either side, which is empty or starts and ends with a non-space character.
   */
  lemma StripKeepsTheMiddle(s: string) returns (i: nat, j: nat)
    ensures i <= j <= |s| && Strip(s) == s[i..j]
    ensures SpaceBetween(s, 0, i) && SpaceBetween(s, j, |s|)
    ensures i == j || (!IsSpace(s[i]) && !IsSpace(s[j - 1]))
  {
    i := SkipSpaces(s, 0);
    var l := s[i..];
    var k := BackSpaces(l, 0, |l|);
    j := i + k;
    assert Strip(s) == l[..k] == s[i..j];
    forall t | j <= t < |s|
      ensures IsSpace(s[t])
    {
      assert s[t] == l[t - i];
    }
    if k > 0 {
      assert l[0] == s[i] && l[k - 1] == s[j - 1];
    }
  }
}
