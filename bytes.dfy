/**
 * Byte strings: UTF-8 encoding of text (`str.encode('utf-8')`), searching a byte string for
 * a pattern (`bytes.find`), and the fact that lets a reader find where an HTTP header block
 * ends: in CRLF-separated lines that hold no CR or LF themselves, the first blank line is the
 * one written after the last line.
 */
module Bytes {
  import opened Text

  newtype byte = b: int | 0 <= b < 0x100

  const CR: byte := 13
  const LF: byte := 10
  const CRLF: seq<byte> := [13, 10]
  /** `b"\r\n\r\n"`, the end of an HTTP header block. */
  const Terminator: seq<byte> := [13, 10, 13, 10]

  /** UTF-8 encoding of one Unicode scalar value. */
  function EncodeChar(c: char): (bs: seq<byte>)
    ensures 1 <= |bs| <= 4
    ensures (c as int) < 0x80 ==> bs == [(c as int) as byte]
    ensures (c as int) >= 0x80 ==> forall i :: 0 <= i < |bs| ==> bs[i] >= 0x80
  {
    var n := c as int;
    if n < 0x80 then [n as byte]
    else if n < 0x800 then [(0xC0 + n / 0x40) as byte, (0x80 + n % 0x40) as byte]
    else if n < 0x10000 then
      [(0xE0 + n / 0x1000) as byte, (0x80 + (n / 0x40) % 0x40) as byte, (0x80 + n % 0x40) as byte]
    else
      [(0xF0 + n / 0x40000) as byte, (0x80 + (n / 0x1000) % 0x40) as byte,
       (0x80 + (n / 0x40) % 0x40) as byte, (0x80 + n % 0x40) as byte]
  }

  /** `s.encode('utf-8')`. */
  function Utf8(s: string): (bs: seq<byte>)
    ensures |bs| >= |s|
  {
    if s == [] then [] else EncodeChar(s[0]) + Utf8(s[1..])
  }

  /** Encoding distributes over concatenation. */
  lemma {:induction false} Utf8Append(a: string, b: string)
    ensures Utf8(a + b) == Utf8(a) + Utf8(b)
  {
    if a != [] {
      Utf8Append(a[1..], b);
      assert (a + b)[1..] == a[1..] + b;
    } else {
      assert a + b == b;
    }
  }

  predicate IsAscii(s: string) {
    forall i :: 0 <= i < |s| ==> (s[i] as int) < 0x80
  }

  /** An ASCII string encodes to one byte per character, each equal to the character's code. */
  lemma {:induction false} Utf8Ascii(s: string)
    requires IsAscii(s)
    ensures |Utf8(s)| == |s|
    ensures forall i :: 0 <= i < |s| ==> Utf8(s)[i] as int == s[i] as int
  {
    if s != [] {
      Utf8Ascii(s[1..]);
    }
  }

  lemma AsciiConcat(a: string, b: string)
    requires IsAscii(a) && IsAscii(b)
    ensures IsAscii(a + b)
  {
    forall i | 0 <= i < |a + b|
      ensures ((a + b)[i] as int) < 0x80
    {
      if i >= |a| {
        assert (a + b)[i] == b[i - |a|];
      }
    }
  }

  /** Joining ASCII parts with an ASCII separator gives ASCII text. */
  lemma {:induction false} JoinAscii(parts: seq<string>, sep: string)
    requires forall i :: 0 <= i < |parts| ==> IsAscii(parts[i])
    requires IsAscii(sep)
    ensures IsAscii(Join(parts, sep))
  {
    if |parts| > 1 {
      JoinAscii(parts[1..], sep);
      AsciiConcat(parts[0], sep);
      AsciiConcat(parts[0] + sep, Join(parts[1..], sep));
    }
  }

  /** A `b"..."` literal: each character stands for the byte with its code. */
  function AsciiBytes(s: string): (bs: seq<byte>)
    ensures |bs| == |s|
  {
    seq(|s|, i requires 0 <= i < |s| => ((s[i] as int) % 0x100) as byte)
  }

  /** For ASCII text, encoding and writing it as a bytes literal agree. */
  lemma Utf8OfAscii(s: string)
    requires IsAscii(s)
    ensures Utf8(s) == AsciiBytes(s)
  {
    Utf8Ascii(s);
  }

  /** Only `'\r'` encodes to a CR byte and only `'\n'` to an LF byte. */
  lemma {:induction false} Utf8NoLineBreak(s: string)
    requires '\r' !in s && '\n' !in s
    ensures CR !in Utf8(s) && LF !in Utf8(s)
  {
    if s != [] {
      Utf8NoLineBreak(s[1..]);
      assert s[0] != '\r' && s[0] != '\n';
    }
  }

  /** `"\r\n\r\n".encode()` is the header terminator. */
  lemma TerminatorText()
    ensures Utf8("\r\n\r\n") == Terminator
  {
  }

  /** The encodings of a list of strings. */
  function Utf8All(lines: seq<string>): (r: seq<seq<byte>>)
    ensures |r| == |lines|
    ensures forall i :: 0 <= i < |lines| ==> r[i] == Utf8(lines[i])
  {
    if lines == [] then [] else [Utf8(lines[0])] + Utf8All(lines[1..])
  }

  /** Encoding a CRLF-joined text is joining the encoded lines with CRLF. */
  lemma {:induction false} Utf8Join(lines: seq<string>)
    ensures Utf8(Join(lines, "\r\n")) == Join(Utf8All(lines), CRLF)
  {
    if |lines| >= 2 {
      Utf8Join(lines[1..]);
      assert Utf8("\r\n") == CRLF;
      Utf8Append(lines[0], "\r\n");
      Utf8Append(lines[0] + "\r\n", Join(lines[1..], "\r\n"));
      assert Utf8All(lines)[1..] == Utf8All(lines[1..]);
    }
  }

  /** `p` occurs in `s` starting at index `j`. */
  predicate OccursAt<T(==)>(s: seq<T>, p: seq<T>, j: int) {
    0 <= j && j + |p| <= |s| && s[j..j + |p|] == p
  }

  /** `s.find(p)`: the first index where `p` occurs in `s`, or -1 when it does not occur. */
  function IndexOf<T(==)>(s: seq<T>, p: seq<T>): (r: int)
    ensures r == -1 || OccursAt(s, p, r)
    ensures forall j :: 0 <= j && (r == -1 || j < r) ==> !OccursAt(s, p, j)
  {
    IndexFrom(s, p, 0)
  }

  function IndexFrom<T(==)>(s: seq<T>, p: seq<T>, i: nat): (r: int)
    ensures r == -1 || (i <= r && OccursAt(s, p, r))
    ensures forall j :: i <= j && (r == -1 || j < r) ==> !OccursAt(s, p, j)
    decreases |s| - i
  {
    if i + |p| > |s| then -1
    else if s[i..i + |p|] == p then i
    else IndexFrom(s, p, i + 1)
  }

  /** The first occurrence is determined by the two facts `IndexOf` promises. */
  lemma IndexOfIs<T>(s: seq<T>, p: seq<T>, r: int)
    requires r == -1 || OccursAt(s, p, r)
    requires forall j :: 0 <= j && (r == -1 || j < r) ==> !OccursAt(s, p, j)
    ensures IndexOf(s, p) == r
  {
    var q := IndexOf(s, p);
    assert r != -1 ==> q != -1 && q <= r;
    assert q != -1 ==> r != -1 && r <= q;
  }

  /** Appending bytes after an occurrence does not move the first occurrence. */
  lemma IndexOfExtend<T>(s: seq<T>, t: seq<T>, p: seq<T>)
    requires IndexOf(s, p) >= 0
    ensures IndexOf(s + t, p) == IndexOf(s, p)
  {
    var r := IndexOf(s, p);
    assert (s + t)[r..r + |p|] == s[r..r + |p|];
    forall j | 0 <= j < r
      ensures !OccursAt(s + t, p, j)
    {
      assert !OccursAt(s, p, j);
      assert (s + t)[j..j + |p|] == s[j..j + |p|];
    }
    IndexOfIs(s + t, p, r);
  }

  /** When `s` holds no occurrence, an occurrence in `s + t` must end inside `t`. */
  lemma IndexOfCrossing<T>(s: seq<T>, t: seq<T>, p: seq<T>)
    requires IndexOf(s, p) == -1
    ensures IndexOf(s + t, p) == -1 || IndexOf(s + t, p) + |p| > |s|
  {
    var r := IndexOf(s + t, p);
    if r != -1 && r + |p| <= |s| {
      assert (s + t)[r..r + |p|] == s[r..r + |p|];
      assert OccursAt(s, p, r);
    }
  }

  /** A header line: not empty, no CR and no LF. */
  predicate IsLine(x: seq<byte>) {
    |x| > 0 && CR !in x && LF !in x
  }

  /** In CRLF-joined lines, every CR is followed, two bytes on, by a byte that is not CR. */
  lemma {:induction false} JoinedLinesNoBlank(xs: seq<seq<byte>>)
    requires |xs| >= 1 && forall i :: 0 <= i < |xs| ==> IsLine(xs[i])
    ensures |Join(xs, CRLF)| >= 1 && Join(xs, CRLF)[0] != CR
    ensures forall j :: 0 <= j < |Join(xs, CRLF)| && Join(xs, CRLF)[j] == CR ==>
              j + 2 < |Join(xs, CRLF)| && Join(xs, CRLF)[j + 2] != CR
  {
    var J := Join(xs, CRLF);
    var x := xs[0];
    if |xs| == 1 {
      assert J == x;
    } else {
      var T := Join(xs[1..], CRLF);
      JoinedLinesNoBlank(xs[1..]);
      assert J == x + CRLF + T;
      forall j | 0 <= j < |J|
        ensures J[j] == CR ==> j + 2 < |J| && J[j + 2] != CR
      {
        if j < |x| {
          assert J[j] == x[j];
        } else if j == |x| {
          assert J[j + 2] == T[0];
        } else if j == |x| + 1 {
          assert J[j] == LF;
        } else {
          assert J[j] == T[j - |x| - 2];
          if j + 2 < |J| {
            assert J[j + 2] == T[j - |x|];
          }
        }
      }
    }
  }

  /**
   * The first blank line after CRLF-joined header lines is the one written after them, so
   * a reader that searches for `\r\n\r\n` finds exactly the end of the header block.
   */
  lemma HeaderEndIsFirstBlankLine(xs: seq<seq<byte>>, rest: seq<byte>)
    requires |xs| >= 1 && forall i :: 0 <= i < |xs| ==> IsLine(xs[i])
    ensures IndexOf(Join(xs, CRLF) + Terminator + rest, Terminator) == |Join(xs, CRLF)|
  {
    var J := Join(xs, CRLF);
    var b := J + Terminator + rest;
    JoinedLinesNoBlank(xs);
    assert b[|J|..|J| + 4] == Terminator;
    forall j | 0 <= j < |J|
      ensures !OccursAt(b, Terminator, j)
    {
      assert b[j] == J[j];
      if J[j] == CR {
        assert b[j + 2] == J[j + 2];
      }
      assert b[j..j + 4][0] == b[j] && b[j..j + 4][2] == b[j + 2];
    }
    IndexOfIs(b, Terminator, |J|);
  }
}
