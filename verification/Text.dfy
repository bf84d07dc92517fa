/** Bytes, decimal numbers and lines as fprintf, fscanf and fgets treat them. */
module Text {

  type byte = b: int | 0 <= b < 256

  const NEWLINE: byte := 10
  const SPACE: byte := 32

  predicate IsSpace(b: byte)
  {
    b == 32 || 9 <= b <= 13
  }

  predicate IsDigit(b: byte)
  {
    48 <= b <= 57
  }

  predicate AllSpace(s: seq<byte>)
  {
    forall i :: 0 <= i < |s| ==> IsSpace(s[i])
  }

  // ----- "%d"

  function PrintNat(n: nat): (s: seq<byte>)
    ensures |s| > 0 && forall i :: 0 <= i < |s| ==> IsDigit(s[i])
  {
    if n < 10 then [48 + n] else PrintNat(n / 10) + [48 + n % 10]
  }

  function PrintInt(n: int): seq<byte>
  {
    if n < 0 then [45] + PrintNat(-n) else PrintNat(n)
  }

  function SkipSpace(s: seq<byte>): seq<byte>
  {
    if s != [] && IsSpace(s[0]) then SkipSpace(s[1..]) else s
  }

  datatype Scan = Got(value: int, rest: seq<byte>) | Missing(rest: seq<byte>)

  function ScanDigits(s: seq<byte>, acc: nat): (nat, seq<byte>)
  {
    if s != [] && IsDigit(s[0]) then ScanDigits(s[1..], 10 * acc + (s[0] - 48)) else (acc, s)
  }

  // Leading whitespace, an optional sign, and at least one digit.
  function ScanInt(s: seq<byte>): Scan
  {
    var t := SkipSpace(s);
    var signed := t != [] && (t[0] == 43 || t[0] == 45);
    var d := if signed then t[1..] else t;
    if d != [] && IsDigit(d[0]) then
      var (v, rest) := ScanDigits(d, 0);
      var value: int := if signed && t[0] == 45 then -(v as int) else v;
      Got(value, rest)
    else Missing(d)
  }

  lemma {:induction false} SkipAllSpace(ws: seq<byte>, s: seq<byte>)
    requires AllSpace(ws)
    ensures SkipSpace(ws + s) == SkipSpace(s)
  {
    if ws == [] {
      assert ws + s == s;
    } else {
      assert (ws + s)[1..] == ws[1..] + s;
      SkipAllSpace(ws[1..], s);
    }
  }

  // The accumulator after the digits of `n` have been read on top of `acc`.
  function Shift(n: nat, acc: nat): nat
  {
    if n < 10 then 10 * acc + n else 10 * Shift(n / 10, acc) + n % 10
  }

  lemma {:induction false} ShiftZero(n: nat)
    ensures Shift(n, 0) == n
  {
    if n >= 10 {
      ShiftZero(n / 10);
    }
  }

  lemma {:induction false} DigitsPrefix(n: nat, acc: nat, rest: seq<byte>)
    ensures ScanDigits(PrintNat(n) + rest, acc) == ScanDigits(rest, Shift(n, acc))
  {
    var last: byte := 48 + n % 10;
    if n < 10 {
      assert (PrintNat(n) + rest)[1..] == rest;
    } else {
      assert PrintNat(n) + rest == PrintNat(n / 10) + ([last] + rest);
      DigitsPrefix(n / 10, acc, [last] + rest);
      assert ([last] + rest)[1..] == rest;
    }
  }

  // Scanning gives back what was printed, whatever whitespace comes first.
  lemma ScanPrinted(ws: seq<byte>, n: nat, rest: seq<byte>)
    requires AllSpace(ws) && (rest == [] || !IsDigit(rest[0]))
    ensures ScanInt(ws + PrintNat(n) + rest) == Got(n, rest)
  {
    var text := PrintNat(n) + rest;
    assert ws + PrintNat(n) + rest == ws + text;
    SkipAllSpace(ws, text);
    assert IsDigit(text[0]);
    DigitsPrefix(n, 0, rest);
    ShiftZero(n);
  }

  lemma ScanPrintedInt(n: int, rest: seq<byte>)
    requires rest == [] || !IsDigit(rest[0])
    ensures ScanInt(PrintInt(n) + rest) == Got(n, rest)
  {
    if n < 0 {
      assert PrintInt(n) + rest == [45] + (PrintNat(-n) + rest);
      ScanNegative(-n, rest);
    } else {
      assert [] + PrintNat(n) + rest == PrintInt(n) + rest;
      ScanPrinted([], n, rest);
    }
  }

  lemma ScanNegative(n: nat, rest: seq<byte>)
    requires rest == [] || !IsDigit(rest[0])
    ensures ScanInt([45] + (PrintNat(n) + rest)) == Got(-(n as int), rest)
  {
    var text := PrintNat(n) + rest;
    assert ([45] + text)[1..] == text && IsDigit(text[0]);
    DigitsPrefix(n, 0, rest);
    ShiftZero(n);
  }

  // A plus sign and leading zeros make no difference; a sign alone or any other byte is no number.
  lemma ScanOther(n: nat, rest: seq<byte>, c: byte)
    requires rest == [] || !IsDigit(rest[0])
    ensures ScanInt([43] + (PrintNat(n) + rest)) == Got(n, rest)
    ensures ScanInt([48] + (PrintNat(n) + rest)) == Got(n, rest)
    ensures c == 43 || c == 45 ==> ScanInt([c] + rest) == Missing(rest)
    ensures !IsDigit(c) && !IsSpace(c) && c != 43 && c != 45 ==> ScanInt([c] + rest) == Missing([c] + rest)
  {
    var text := PrintNat(n) + rest;
    assert ([43] + text)[1..] == text && ([48] + text)[1..] == text && ([c] + rest)[1..] == rest;
    assert IsDigit(text[0]);
    DigitsPrefix(n, 0, rest);
    ShiftZero(n);
  }

  lemma ScanAfterSpace(ws: seq<byte>, n: int, rest: seq<byte>)
    requires AllSpace(ws) && (rest == [] || !IsDigit(rest[0]))
    ensures ScanInt(ws + (PrintInt(n) + rest)) == Got(n, rest)
  {
    ScanPrintedInt(n, rest);
    SkipAllSpace(ws, PrintInt(n) + rest);
  }

  function Pow10(k: nat): nat
  {
    if k == 0 then 1 else 10 * Pow10(k - 1)
  }

  lemma {:induction false} PrintLength(n: nat, k: nat)
    requires k > 0 && n < Pow10(k)
    ensures |PrintNat(n)| <= k
  {
    if n >= 10 {
      assert k > 1;
      PrintLength(n / 10, k - 1);
    }
  }

  // ----- fgets

  const LINE_MAX := 255

  // Bytes up to and including the first newline, at most `n` of them.
  function LineLength(s: seq<byte>, n: nat): (k: nat)
    ensures k <= n && k <= |s| && (n > 0 && s != [] ==> k > 0)
  {
    if n == 0 || s == [] then 0
    else if s[0] == NEWLINE then 1
    else 1 + LineLength(s[1..], n - 1)
  }

  // One fgets call into a buffer of 256: at end of file the buffer keeps its old line.
  function Fgets(s: seq<byte>, line: seq<byte>): (seq<byte>, seq<byte>)
  {
    if s == [] then (line, s)
    else
      var k := LineLength(s, LINE_MAX);
      (s[..k], s[k..])
  }

  // A buffer of 256 takes 255 bytes of a longer line and leaves the rest of it for the next call.
  lemma FgetsLongLine(line: seq<byte>, rest: seq<byte>, old_line: seq<byte>)
    requires NoNewline(line) && |line| == 255
    ensures Fgets(line + rest, old_line) == (line, rest)
  {
    LineLengthLong(line, rest, 255);
    assert (line + rest)[..255] == line;
  }

  lemma {:induction false} LineLengthLong(line: seq<byte>, rest: seq<byte>, n: nat)
    requires NoNewline(line) && |line| == n
    ensures LineLength(line + rest, n) == n
  {
    if line != [] {
      assert (line + rest)[1..] == line[1..] + rest;
      LineLengthLong(line[1..], rest, n - 1);
    }
  }

  // The buffer is terminated by a NUL.
  function CharAt(line: seq<byte>, k: nat): byte
  {
    if k < |line| then line[k] else 0
  }

  predicate NoNewline(s: seq<byte>)
  {
    forall i :: 0 <= i < |s| ==> s[i] != NEWLINE
  }

  lemma {:induction false} LineLengthOf(line: seq<byte>, rest: seq<byte>, n: nat)
    requires NoNewline(line) && |line| < n
    ensures LineLength(line + [NEWLINE] + rest, n) == |line| + 1
  {
    if line != [] {
      assert (line + [NEWLINE] + rest)[1..] == line[1..] + [NEWLINE] + rest;
      LineLengthOf(line[1..], rest, n - 1);
    }
  }

  lemma FgetsLine(line: seq<byte>, rest: seq<byte>, old_line: seq<byte>)
    requires NoNewline(line) && |line| < LINE_MAX
    ensures Fgets(line + [NEWLINE] + rest, old_line) == (line + [NEWLINE], rest)
  {
    LineLengthOf(line, rest, LINE_MAX);
    assert (line + [NEWLINE] + rest)[..|line| + 1] == line + [NEWLINE];
  }
}
