/**
 * The Python `str` operations the daemon relies on: whitespace stripping, splitting on a
 * separator, prefix and suffix tests, rendering a non-negative integer with `str()` and
 * parsing one with `int()`.
 */
module Text {
  import opened Common

  /** Python's `str.isspace()` on one character: the characters `str.strip()` removes. */
  predicate IsSpace(c: char) {
    c == ' ' || ('\t' <= c <= '\r') || ('\U{1C}' <= c <= '\U{1F}') || c == '\U{85}' || c == '\U{A0}'
    || c == '\U{1680}' || ('\U{2000}' <= c <= '\U{200A}') || c == '\U{2028}' || c == '\U{2029}'
    || c == '\U{202F}' || c == '\U{205F}' || c == '\U{3000}'
  }

  predicate IsDigit(c: char) {
    '0' <= c <= '9'
  }

  /** `s.lstrip()`: drops leading whitespace. */
  function LStrip(s: string): (r: string)
    ensures r == [] || !IsSpace(r[0])
  {
    if |s| > 0 && IsSpace(s[0]) then LStrip(s[1..]) else s
  }

  /** `lstrip` keeps a suffix of `s` and drops only whitespace. */
  lemma {:induction false} LStripSuffix(s: string)
    ensures |LStrip(s)| <= |s| && LStrip(s) == s[|s| - |LStrip(s)|..]
    ensures forall k :: 0 <= k < |s| - |LStrip(s)| ==> IsSpace(s[k])
  {
    if |s| > 0 && IsSpace(s[0]) {
      LStripSuffix(s[1..]);
    }
  }

  /** `s.rstrip()`: drops trailing whitespace. */
  function RStrip(s: string): (r: string)
    ensures r == [] || !IsSpace(r[|r| - 1])
  {
    if |s| > 0 && IsSpace(s[|s| - 1]) then RStrip(s[..|s| - 1]) else s
  }

  /** `rstrip` keeps a prefix of `s` and drops only whitespace. */
  lemma {:induction false} RStripPrefix(s: string)
    ensures |RStrip(s)| <= |s| && RStrip(s) == s[..|RStrip(s)|]
    ensures forall k :: |RStrip(s)| <= k < |s| ==> IsSpace(s[k])
  {
    if |s| > 0 && IsSpace(s[|s| - 1]) {
      RStripPrefix(s[..|s| - 1]);
      assert s[..|s| - 1][..|RStrip(s)|] == s[..|RStrip(s)|];
    }
  }

  /** `s.strip()`: the longest middle part of `s` that neither starts nor ends with whitespace. */
  function Strip(s: string): (r: string)
    ensures r == [] || (!IsSpace(r[0]) && !IsSpace(r[|r| - 1]))
  {
    RStripPrefix(LStrip(s));
    RStrip(LStrip(s))
  }

  /** `s.lstrip(c)` for a single character `c`, as `path.lstrip('/')`. */
  function LStripChar(s: string, c: char): (r: string)
    ensures r == [] || r[0] != c
    ensures exists i :: 0 <= i <= |s| && r == s[i..] && forall k :: 0 <= k < i ==> s[k] == c
  {
    if |s| > 0 && s[0] == c then
      var r := LStripChar(s[1..], c);
      var i :| 0 <= i <= |s| - 1 && r == s[1..][i..] && forall k :: 0 <= k < i ==> s[1..][k] == c;
      assert r == s[i + 1..];
      r
    else
      assert s == s[0..];
      s
  }

  /** A string that starts with a non-space character is its own `lstrip()`. */
  lemma LStripNoSpace(s: string)
    requires s != [] && !IsSpace(s[0])
    ensures LStrip(s) == s
  {
  }

  /** A string that ends with a non-space character is its own `rstrip()`. */
  lemma RStripNoSpace(s: string)
    requires s != [] && !IsSpace(s[|s| - 1])
    ensures RStrip(s) == s
  {
  }

  /** A string whose ends are not whitespace is its own `strip()`. */
  lemma StripClean(s: string)
    requires s == [] || (!IsSpace(s[0]) && !IsSpace(s[|s| - 1]))
    ensures Strip(s) == s
  {
    if s == [] {
      assert Strip(s) == [];
    } else {
      LStripNoSpace(s);
      RStripNoSpace(s);
    }
  }

  predicate StartsWith<T(==)>(s: seq<T>, prefix: seq<T>) {
    prefix <= s
  }

  /** `s.endswith(suffix)`. */
  predicate EndsWith<T(==)>(s: seq<T>, suffix: seq<T>) {
    |suffix| <= |s| && s[|s| - |suffix|..] == suffix
  }

  /** `s.split(sep)` for a one-character separator: always at least one part, none holds `sep`. */
  function Split(s: string, sep: char): (parts: seq<string>)
    ensures |parts| >= 1
    ensures forall i :: 0 <= i < |parts| ==> sep !in parts[i]
  {
    if s == [] then [[]]
    else
      var rest := Split(s[1..], sep);
      if s[0] == sep then [[]] + rest else [[s[0]] + rest[0]] + rest[1..]
  }

  /** `sep.join(parts)`. */
  function Join<T>(parts: seq<seq<T>>, sep: seq<T>): seq<T> {
    if |parts| == 0 then []
    else if |parts| == 1 then parts[0]
    else parts[0] + sep + Join(parts[1..], sep)
  }

  /** Joining the parts of a split gives back the original string. */
  lemma {:induction false} JoinSplit(s: string, sep: char)
    ensures Join(Split(s, sep), [sep]) == s
  {
    if s != [] {
      var rest := Split(s[1..], sep);
      JoinSplit(s[1..], sep);
      if s[0] == sep {
        assert Split(s, sep) == [[]] + rest;
        assert Join([[]] + rest, [sep]) == [] + [sep] + Join(rest, [sep]);
      } else {
        var parts := Split(s, sep);
        assert parts == [[s[0]] + rest[0]] + rest[1..];
        if |rest| == 1 {
          assert Join(parts, [sep]) == [s[0]] + rest[0];
          assert Join(rest, [sep]) == rest[0];
        } else {
          assert Join(rest, [sep]) == rest[0] + [sep] + Join(rest[1..], [sep]);
          assert parts[1..] == rest[1..];
          assert Join(parts, [sep]) == [s[0]] + rest[0] + [sep] + Join(rest[1..], [sep]);
        }
      }
    }
  }

  /** Splitting a join of separator-free parts gives back the parts. */
  lemma {:induction false} SplitJoin(parts: seq<string>, sep: char)
    requires |parts| >= 1
    requires forall i :: 0 <= i < |parts| ==> sep !in parts[i]
    ensures Split(Join(parts, [sep]), sep) == parts
  {
    if |parts| == 1 {
      SplitFree(parts[0], sep);
    } else {
      SplitJoin(parts[1..], sep);
      SplitPrefix(parts[0], [sep] + Join(parts[1..], [sep]), sep);
      assert Join(parts, [sep]) == parts[0] + ([sep] + Join(parts[1..], [sep]));
      assert ([sep] + Join(parts[1..], [sep]))[1..] == Join(parts[1..], [sep]);
      assert [parts[0]] + parts[1..] == parts;
    }
  }

  /** A string without the separator splits into itself. */
  lemma {:induction false} SplitFree(s: string, sep: char)
    requires sep !in s
    ensures Split(s, sep) == [s]
  {
    if s != [] {
      SplitFree(s[1..], sep);
      assert [s[0]] + s[1..] == s;
    }
  }

  /** Splitting `a + b`, where `a` is free of the separator and `b` starts with it. */
  lemma {:induction false} SplitPrefix(a: string, b: string, sep: char)
    requires sep !in a
    requires |b| > 0 && b[0] == sep
    ensures Split(a + b, sep) == [a] + Split(b[1..], sep)
  {
    if a == [] {
      assert a + b == b;
    } else {
      SplitPrefix(a[1..], b, sep);
      assert (a + b)[1..] == a[1..] + b;
      assert [a[0]] + a[1..] == a;
    }
  }

  /** The text before the first `c`, as `s.split(c, 1)[0]`. */
  function Before(s: string, c: char): (r: string)
    ensures r <= s && c !in r
    ensures |r| < |s| ==> s[|r|] == c
  {
    if s == [] || s[0] == c then [] else [s[0]] + Before(s[1..], c)
  }

  /** The text before the first `c` when `c` follows `a`, which is free of it. */
  lemma {:induction false} BeforeSeparator(a: string, c: char, b: string)
    requires c !in a
    ensures Before(a + [c] + b, c) == a
  {
    if a != [] {
      assert (a + [c] + b)[1..] == a[1..] + [c] + b;
      BeforeSeparator(a[1..], c, b);
    }
  }

  /** The ASCII digit for `d`. */
  function DigitChar(d: nat): (c: char)
    requires d < 10
    ensures IsDigit(c) && DigitValue(c) == d
  {
    (('0' as int) + d) as char
  }

  function DigitValue(c: char): nat
    requires IsDigit(c)
  {
    (c as int) - ('0' as int)
  }

  /** `str(n)` for a non-negative integer: decimal digits with no leading zero. */
  function NatToString(n: nat): (s: string)
    ensures |s| >= 1 && forall i :: 0 <= i < |s| ==> IsDigit(s[i])
    ensures |s| > 1 ==> s[0] != '0'
  {
    if n < 10 then [DigitChar(n)] else NatToString(n / 10) + [DigitChar(n % 10)]
  }

  /**
   * The digit value of code point `c` when it is a Unicode decimal digit (general category Nd,
   * Unicode 15.0) other than `0`-`9`. Those digits come in blocks of ten, each holding the
   * digits 0 to 9 in order, and `int()` accepts any of them in place of the ASCII ones. The
   * blocks are searched by the code point of their zero.
   */
  function OtherDecimal(c: int): Option<nat> {
    if c < 0xAA50 then
      if c < 0x1040 then
        if c < 0xBE6 then
          if c < 0x9E6 then
            if c < 0x7C0 then
              if c < 0x6F0 then
                if 0x660 <= c < 0x66A then Some(c - 0x660) else None
              else
                if 0x6F0 <= c < 0x6FA then Some(c - 0x6F0) else None
            else
              if c < 0x966 then
                if 0x7C0 <= c < 0x7CA then Some(c - 0x7C0) else None
              else
                if 0x966 <= c < 0x970 then Some(c - 0x966) else None
          else
            if c < 0xAE6 then
              if c < 0xA66 then
                if 0x9E6 <= c < 0x9F0 then Some(c - 0x9E6) else None
              else
                if 0xA66 <= c < 0xA70 then Some(c - 0xA66) else None
            else
              if c < 0xB66 then
                if 0xAE6 <= c < 0xAF0 then Some(c - 0xAE6) else None
              else
                if 0xB66 <= c < 0xB70 then Some(c - 0xB66) else None
        else
          if c < 0xDE6 then
            if c < 0xCE6 then
              if c < 0xC66 then
                if 0xBE6 <= c < 0xBF0 then Some(c - 0xBE6) else None
              else
                if 0xC66 <= c < 0xC70 then Some(c - 0xC66) else None
            else
              if c < 0xD66 then
                if 0xCE6 <= c < 0xCF0 then Some(c - 0xCE6) else None
              else
                if 0xD66 <= c < 0xD70 then Some(c - 0xD66) else None
          else
            if c < 0xED0 then
              if c < 0xE50 then
                if 0xDE6 <= c < 0xDF0 then Some(c - 0xDE6) else None
              else
                if 0xE50 <= c < 0xE5A then Some(c - 0xE50) else None
            else
              if c < 0xF20 then
                if 0xED0 <= c < 0xEDA then Some(c - 0xED0) else None
              else
                if 0xF20 <= c < 0xF2A then Some(c - 0xF20) else None
      else
        if c < 0x1B50 then
          if c < 0x1946 then
            if c < 0x17E0 then
              if c < 0x1090 then
                if 0x1040 <= c < 0x104A then Some(c - 0x1040) else None
              else
                if 0x1090 <= c < 0x109A then Some(c - 0x1090) else None
            else
              if c < 0x1810 then
                if 0x17E0 <= c < 0x17EA then Some(c - 0x17E0) else None
              else
                if 0x1810 <= c < 0x181A then Some(c - 0x1810) else None
          else
            if c < 0x1A80 then
              if c < 0x19D0 then
                if 0x1946 <= c < 0x1950 then Some(c - 0x1946) else None
              else
                if 0x19D0 <= c < 0x19DA then Some(c - 0x19D0) else None
            else
              if c < 0x1A90 then
                if 0x1A80 <= c < 0x1A8A then Some(c - 0x1A80) else None
              else
                if 0x1A90 <= c < 0x1A9A then Some(c - 0x1A90) else None
        else
          if c < 0xA620 then
            if c < 0x1C40 then
              if c < 0x1BB0 then
                if 0x1B50 <= c < 0x1B5A then Some(c - 0x1B50) else None
              else
                if 0x1BB0 <= c < 0x1BBA then Some(c - 0x1BB0) else None
            else
              if c < 0x1C50 then
                if 0x1C40 <= c < 0x1C4A then Some(c - 0x1C40) else None
              else
                if 0x1C50 <= c < 0x1C5A then Some(c - 0x1C50) else None
          else
            if c < 0xA900 then
              if c < 0xA8D0 then
                if 0xA620 <= c < 0xA62A then Some(c - 0xA620) else None
              else
                if 0xA8D0 <= c < 0xA8DA then Some(c - 0xA8D0) else None
            else
              if c < 0xA9D0 then
                if 0xA900 <= c < 0xA90A then Some(c - 0xA900) else None
              else
                if c < 0xA9F0 then
                  if 0xA9D0 <= c < 0xA9DA then Some(c - 0xA9D0) else None
                else
                  if 0xA9F0 <= c < 0xA9FA then Some(c - 0xA9F0) else None
    else
      if c < 0x11C50 then
        if c < 0x111D0 then
          if c < 0x10D30 then
            if c < 0xFF10 then
              if c < 0xABF0 then
                if 0xAA50 <= c < 0xAA5A then Some(c - 0xAA50) else None
              else
                if 0xABF0 <= c < 0xABFA then Some(c - 0xABF0) else None
            else
              if c < 0x104A0 then
                if 0xFF10 <= c < 0xFF1A then Some(c - 0xFF10) else None
              else
                if 0x104A0 <= c < 0x104AA then Some(c - 0x104A0) else None
          else
            if c < 0x110F0 then
              if c < 0x11066 then
                if 0x10D30 <= c < 0x10D3A then Some(c - 0x10D30) else None
              else
                if 0x11066 <= c < 0x11070 then Some(c - 0x11066) else None
            else
              if c < 0x11136 then
                if 0x110F0 <= c < 0x110FA then Some(c - 0x110F0) else None
              else
                if 0x11136 <= c < 0x11140 then Some(c - 0x11136) else None
        else
          if c < 0x11650 then
            if c < 0x11450 then
              if c < 0x112F0 then
                if 0x111D0 <= c < 0x111DA then Some(c - 0x111D0) else None
              else
                if 0x112F0 <= c < 0x112FA then Some(c - 0x112F0) else None
            else
              if c < 0x114D0 then
                if 0x11450 <= c < 0x1145A then Some(c - 0x11450) else None
              else
                if 0x114D0 <= c < 0x114DA then Some(c - 0x114D0) else None
          else
            if c < 0x11730 then
              if c < 0x116C0 then
                if 0x11650 <= c < 0x1165A then Some(c - 0x11650) else None
              else
                if 0x116C0 <= c < 0x116CA then Some(c - 0x116C0) else None
            else
              if c < 0x118E0 then
                if 0x11730 <= c < 0x1173A then Some(c - 0x11730) else None
              else
                if c < 0x11950 then
                  if 0x118E0 <= c < 0x118EA then Some(c - 0x118E0) else None
                else
                  if 0x11950 <= c < 0x1195A then Some(c - 0x11950) else None
      else
        if c < 0x1D7D8 then
          if c < 0x16A60 then
            if c < 0x11DA0 then
              if c < 0x11D50 then
                if 0x11C50 <= c < 0x11C5A then Some(c - 0x11C50) else None
              else
                if 0x11D50 <= c < 0x11D5A then Some(c - 0x11D50) else None
            else
              if c < 0x11F50 then
                if 0x11DA0 <= c < 0x11DAA then Some(c - 0x11DA0) else None
              else
                if 0x11F50 <= c < 0x11F5A then Some(c - 0x11F50) else None
          else
            if c < 0x16B50 then
              if c < 0x16AC0 then
                if 0x16A60 <= c < 0x16A6A then Some(c - 0x16A60) else None
              else
                if 0x16AC0 <= c < 0x16ACA then Some(c - 0x16AC0) else None
            else
              if c < 0x1D7CE then
                if 0x16B50 <= c < 0x16B5A then Some(c - 0x16B50) else None
              else
                if 0x1D7CE <= c < 0x1D7D8 then Some(c - 0x1D7CE) else None
        else
          if c < 0x1E140 then
            if c < 0x1D7EC then
              if c < 0x1D7E2 then
                if 0x1D7D8 <= c < 0x1D7E2 then Some(c - 0x1D7D8) else None
              else
                if 0x1D7E2 <= c < 0x1D7EC then Some(c - 0x1D7E2) else None
            else
              if c < 0x1D7F6 then
                if 0x1D7EC <= c < 0x1D7F6 then Some(c - 0x1D7EC) else None
              else
                if 0x1D7F6 <= c < 0x1D800 then Some(c - 0x1D7F6) else None
          else
            if c < 0x1E4F0 then
              if c < 0x1E2F0 then
                if 0x1E140 <= c < 0x1E14A then Some(c - 0x1E140) else None
              else
                if 0x1E2F0 <= c < 0x1E2FA then Some(c - 0x1E2F0) else None
            else
              if c < 0x1E950 then
                if 0x1E4F0 <= c < 0x1E4FA then Some(c - 0x1E4F0) else None
              else
                if c < 0x1FBF0 then
                  if 0x1E950 <= c < 0x1E95A then Some(c - 0x1E950) else None
                else
                  if 0x1FBF0 <= c < 0x1FBFA then Some(c - 0x1FBF0) else None
  }

  /** The value of `c` as a Unicode decimal digit, `None` when it is not one. */
  function DecimalValue(c: char): Option<nat> {
    if IsDigit(c) then Some(DigitValue(c)) else OtherDecimal(c as int)
  }

  predicate IsDecimal(c: char) {
    DecimalValue(c).Some?
  }

  /** Decimal digits and underscores only. */
  predicate DigitChars(s: string) {
    forall i :: 0 <= i < |s| ==> IsDecimal(s[i]) || s[i] == '_'
  }

  /** No two underscores in a row. */
  predicate NoDoubleUnderscore(s: string) {
    |s| < 2 || ((s[0] != '_' || s[1] != '_') && NoDoubleUnderscore(s[1..]))
  }

  /**
   * The digit part `int()` accepts: decimal digits, with single underscores allowed
   * only between two digits.
   */
  predicate IsDigitGroup(s: string) {
    && |s| > 0
    && IsDecimal(s[0]) && IsDecimal(s[|s| - 1])
    && DigitChars(s)
    && NoDoubleUnderscore(s)
  }

  /** The value of a digit group, underscores ignored. */
  function DigitsValue(s: string): nat
    requires DigitChars(s)
  {
    if s == [] then 0
    else if s[|s| - 1] == '_' then DigitsValue(s[..|s| - 1])
    else DigitsValue(s[..|s| - 1]) * 10 + DecimalValue(s[|s| - 1]).value
  }

  /**
   * The whitespace `int()` skips around a number: `str.isspace()` characters except the four
   * separator controls U+001C to U+001F, which `int()` leaves in place and then rejects.
   */
  predicate IntSpace(c: char) {
    IsSpace(c) && !('\U{1C}' <= c <= '\U{1F}')
  }

  /** `s` without the leading characters `int()` skips: a suffix, with only those dropped. */
  function IntLTrim(s: string): (r: string)
    ensures r == [] || !IntSpace(r[0])
    ensures |r| <= |s| && r == s[|s| - |r|..]
    ensures forall k :: 0 <= k < |s| - |r| ==> IntSpace(s[k])
  {
    if |s| > 0 && IntSpace(s[0]) then IntLTrim(s[1..]) else s
  }

  /** `s` without the trailing characters `int()` skips: a prefix, with only those dropped. */
  function IntRTrim(s: string): (r: string)
    ensures r == [] || !IntSpace(r[|r| - 1])
    ensures |r| <= |s| && r == s[..|r|]
    ensures forall k :: |r| <= k < |s| ==> IntSpace(s[k])
  {
    if |s| > 0 && IntSpace(s[|s| - 1]) then
      var r := IntRTrim(s[..|s| - 1]);
      assert s[..|s| - 1][..|r|] == s[..|r|];
      r
    else s
  }

  /** `s` without the leading and trailing characters `int()` skips. */
  function IntTrim(s: string): (r: string)
    ensures r == [] || (!IntSpace(r[0]) && !IntSpace(r[|r| - 1]))
  {
    IntRTrim(IntLTrim(s))
  }

  /** The most digits `int()` converts; more raise `ValueError` (CPython's default limit). */
  const MaxStrDigits: nat := 4300

  /** The number of digits in a digit group, underscores not counted. */
  function DecimalCount(s: string): (n: nat)
    ensures n <= |s|
  {
    if s == [] then 0 else DecimalCount(s[..|s| - 1]) + (if s[|s| - 1] == '_' then 0 else 1)
  }

  function Pow10(k: nat): (p: nat)
    ensures p >= 1
  {
    if k == 0 then 1 else 10 * Pow10(k - 1)
  }

  lemma {:induction false} Pow10Monotone(j: nat, k: nat)
    requires j <= k
    ensures Pow10(j) <= Pow10(k)
  {
    if j < k {
      Pow10Monotone(j, k - 1);
    }
  }

  /** Every decimal digit's value is below ten. */
  lemma DecimalBelowTen(c: char)
    requires IsDecimal(c)
    ensures DecimalValue(c).value < 10
  {
  }

  /** A digit group of `k` digits has a value below `10^k`. */
  lemma {:induction false} DigitsValueBound(s: string)
    requires DigitChars(s)
    ensures DigitsValue(s) < Pow10(DecimalCount(s))
  {
    if s != [] {
      var init := s[..|s| - 1];
      assert DigitChars(init);
      DigitsValueBound(init);
      if s[|s| - 1] != '_' {
        DecimalBelowTen(s[|s| - 1]);
      }
    }
  }

  /** A number below `10^k` is written with at most `k` digits. */
  lemma {:induction false} NatToStringLength(n: nat, k: nat)
    requires k >= 1 && n < Pow10(k)
    ensures |NatToString(n)| <= k
  {
    if n >= 10 {
      NatToStringLength(n / 10, k - 1);
    }
  }

  /**
   * The unsigned part of `int()`: a digit group of at most `MaxStrDigits` Unicode decimal
   * digits, whose value `str()` writes back within the limit.
   */
  function ParseDigits(digits: string): (r: Option<nat>)
    ensures r.Some? ==> IsDigitGroup(digits) && |NatToString(r.value)| <= MaxStrDigits
  {
    if IsDigitGroup(digits) && DecimalCount(digits) <= MaxStrDigits then
      DigitsBelowLimit(digits);
      Some(DigitsValue(digits))
    else None
  }

  lemma DigitsBelowLimit(digits: string)
    requires IsDigitGroup(digits) && DecimalCount(digits) <= MaxStrDigits
    ensures |NatToString(DigitsValue(digits))| <= MaxStrDigits
  {
    assert DecimalCount(digits) >= 1 by {
      assert digits[|digits| - 1] != '_';
    }
    DigitsValueBound(digits);
    NatToStringLength(DigitsValue(digits), DecimalCount(digits));
  }

  /**
   * Python's `int(s)` in base 10: surrounding whitespace is ignored, an optional `+` or `-`
   * sign, then a digit group of at most `MaxStrDigits` Unicode decimal digits. `None` stands
   * for the `ValueError` it raises otherwise. Whatever it accepts is written back by `str()`
   * within the digit limit, and only a `-` sign makes it negative.
   */
  function ParseInt(s: string): (r: Option<int>)
    ensures r.Some? ==> |NatToString(if r.value < 0 then -r.value else r.value)| <= MaxStrDigits
    ensures r.Some? && r.value < 0 ==> IntTrim(s) != [] && IntTrim(s)[0] == '-'
  {
    ParseTrimmed(IntTrim(s))
  }

  /** `int()` once the whitespace around the number is gone: an optional sign, then digits. */
  function ParseTrimmed(t: string): (r: Option<int>)
    ensures r.Some? ==> |NatToString(if r.value < 0 then -r.value else r.value)| <= MaxStrDigits
    ensures r.Some? && r.value < 0 ==> t != [] && t[0] == '-'
  {
    if |t| > 0 && (t[0] == '+' || t[0] == '-') then
      match ParseDigits(t[1..])
      case Some(v) =>
        var n: int := v;
        Some(if t[0] == '-' then -n else n)
      case None => None
    else
      match ParseDigits(t)
      case Some(v) => Some(v)
      case None => None
  }

  /** A decimal digit is neither whitespace nor a sign. */
  lemma DecimalNotSpaceOrSign(c: char)
    requires IsDecimal(c)
    ensures !IsSpace(c) && c != '+' && c != '-'
  {
  }

  /** A digit group of more than `MaxStrDigits` digits is refused, whatever its value. */
  lemma ParseIntTooLong(s: string)
    requires IsDigitGroup(s) && DecimalCount(s) > MaxStrDigits
    ensures ParseInt(s).None?
  {
    DecimalNotSpaceOrSign(s[0]);
    DecimalNotSpaceOrSign(s[|s| - 1]);
    assert IntLTrim(s) == s;
    assert IntRTrim(s) == s;
  }

  lemma {:induction false} IntLTrimSpaces(before: string, s: string)
    requires forall i :: 0 <= i < |before| ==> IntSpace(before[i])
    ensures IntLTrim(before + s) == IntLTrim(s)
  {
    if before != [] {
      assert (before + s)[0] == before[0] && (before + s)[1..] == before[1..] + s;
      IntLTrimSpaces(before[1..], s);
    } else {
      assert before + s == s;
    }
  }

  lemma {:induction false} IntRTrimSpaces(s: string, after: string)
    requires forall i :: 0 <= i < |after| ==> IntSpace(after[i])
    ensures IntRTrim(s + after) == IntRTrim(s)
  {
    if after != [] {
      var n := |after| - 1;
      assert (s + after)[..|s + after| - 1] == s + after[..n];
      IntRTrimSpaces(s, after[..n]);
    } else {
      assert s + after == s;
    }
  }

  /** Trimming keeps a text whose ends are not skipped whitespace, and drops what is around it. */
  lemma IntTrimAround(before: string, t: string, after: string)
    requires forall i :: 0 <= i < |before| ==> IntSpace(before[i])
    requires forall i :: 0 <= i < |after| ==> IntSpace(after[i])
    requires t != [] && !IntSpace(t[0]) && !IntSpace(t[|t| - 1])
    ensures IntTrim(before + t + after) == t == IntTrim(t)
  {
    assert before + t + after == before + (t + after);
    IntLTrimSpaces(before, t + after);
    IntRTrimSpaces(t, after);
    assert IntLTrim(t + after) == t + after;
    assert IntLTrim(t) == t && IntRTrim(t) == t;
  }

  /** `int()` ignores the whitespace it skips on either side of a number. */
  lemma ParseIntSpacesAround(before: string, t: string, after: string)
    requires forall i :: 0 <= i < |before| ==> IntSpace(before[i])
    requires forall i :: 0 <= i < |after| ==> IntSpace(after[i])
    requires t != [] && !IntSpace(t[0]) && !IntSpace(t[|t| - 1])
    ensures ParseInt(before + t + after) == ParseInt(t)
  {
    IntTrimAround(before, t, after);
  }

  /** A character `int()` does not skip stays at the front of the trimmed text. */
  lemma IntTrimKeepsFirst(c: char, s: string)
    requires !IntSpace(c)
    ensures IntTrim([c] + s) != [] && IntTrim([c] + s)[0] == c
  {
    var x := [c] + s;
    assert IntLTrim(x) == x;
  }

  /**
   * The separator controls U+001C to U+001F are whitespace to `str.strip()` but not to
   * `int()`: a text that starts with one is refused.
   */
  lemma ParseIntRejectsSeparator(c: char, s: string)
    requires '\U{1C}' <= c <= '\U{1F}'
    ensures ParseInt([c] + s).None?
  {
    IntTrimKeepsFirst(c, s);
    ParseTrimmedRejects(IntTrim([c] + s));
  }

  /** A text that starts with neither a sign nor a decimal digit is refused. */
  lemma ParseTrimmedRejects(t: string)
    requires t != [] && t[0] != '+' && t[0] != '-' && !IsDecimal(t[0])
    ensures ParseTrimmed(t).None?
  {
    assert !IsDigitGroup(t);
  }

  /** A single decimal digit reads as its value. */
  lemma ParseIntOneDigit(c: char)
    requires IsDecimal(c)
    ensures ParseInt([c]) == Some(DecimalValue(c).value)
  {
    DecimalNotSpaceOrSign(c);
    IntTrimAround([], [c], []);
    assert [] + [c] + [] == [c];
    assert [c][..0] == [];
    assert DecimalCount([c]) == 1;
    assert DigitsValue([c]) == DecimalValue(c).value;
  }

  lemma {:induction false} DigitsValueOfNat(n: nat)
    ensures DigitChars(NatToString(n)) && DigitsValue(NatToString(n)) == n
  {
    var s := NatToString(n);
    assert forall i :: 0 <= i < |s| ==> IsDigit(s[i]);
    assert DigitChars(s);
    if n >= 10 {
      var t := NatToString(n / 10);
      DigitsValueOfNat(n / 10);
      assert s == t + [DigitChar(n % 10)];
      assert s[..|s| - 1] == t;
      assert DecimalValue(s[|s| - 1]) == Some(n % 10);
    } else {
      assert s[..|s| - 1] == [];
    }
  }

  lemma {:induction false} DigitsNoUnderscore(s: string)
    requires forall i :: 0 <= i < |s| ==> IsDigit(s[i])
    ensures NoDoubleUnderscore(s)
  {
    if |s| >= 2 {
      DigitsNoUnderscore(s[1..]);
    }
  }

  lemma {:induction false} DigitsCount(s: string)
    requires forall i :: 0 <= i < |s| ==> IsDigit(s[i])
    ensures DecimalCount(s) == |s|
  {
    if s != [] {
      DigitsCount(s[..|s| - 1]);
    }
  }

  /**
   * `int(str(n)) == n` for every `n` whose decimal rendering is within the digit limit: the
   * rendering of a length parses back to it.
   */
  lemma {:induction false} ParseIntNatToString(n: nat)
    requires |NatToString(n)| <= MaxStrDigits
    ensures ParseInt(NatToString(n)) == Some(n)
  {
    var s := NatToString(n);
    assert IntLTrim(s) == s && IntRTrim(s) == s;
    DigitsNoUnderscore(s);
    DigitsCount(s);
    DigitsValueOfNat(n);
    assert s[0] != '+' && s[0] != '-';
    assert IsDigitGroup(s);
  }
}
