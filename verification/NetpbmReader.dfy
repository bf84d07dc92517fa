/** What the reader makes of any file: an image, a fatal error, or an endless comment loop. */
module NetpbmReader {
  import opened Text
  import opened NetpbmFormat

  // ----- the reader, pixel by pixel

  // `rest` is what is left of the file; `count`, `bw`, `r`, `g`, `b` are the reader's variables.
  datatype Reader = Reader(rest: seq<byte>, count: nat, bw: int, r: int, g: int, b: int)

  function GetByte(s: seq<byte>): (int, seq<byte>)
  {
    if s == [] then (-1, s) else (s[0], s[1..])
  }

  // Bit `k` of an int in two's complement.
  function Bit(v: int, k: nat): bool
    decreases k
  {
    if k == 0 then v % 2 == 1 else Bit(v / 2, k - 1)
  }

  // A conversion that fails leaves its variable alone.
  function Stored(scan: Scan, old_value: int): int
  {
    match scan
    case Got(value, _) => value
    case Missing(_) => old_value
  }

  function ScanTriple(st: Reader): Reader
  {
    var first := ScanInt(st.rest);
    if first.Missing? then st.(rest := first.rest)
    else
      var second := ScanInt(SkipSpace(first.rest));
      if second.Missing? then st.(rest := second.rest, r := first.value)
      else
        var third := ScanInt(SkipSpace(second.rest));
        st.(rest := third.rest, r := first.value, g := second.value, b := Stored(third, st.b))
  }

  // A new byte at every eighth pixel of a row.
  function NextByte(st: Reader): (int, seq<byte>)
  {
    if st.count % 8 == 0 then GetByte(st.rest) else (st.bw, st.rest)
  }

  function GetBit(st: Reader, endOfRow: bool): Reader
  {
    var (bw, rest) := NextByte(st);
    var v := if Bit(bw, 7 - st.count % 8) then 0 else 255;
    Reader(rest, if endOfRow then 0 else st.count + 1, bw, v, v, v)
  }

  function Get(mode: int, st: Reader, endOfRow: bool): Reader
  {
    if mode == PBM_RAW then GetBit(st, endOfRow)
    else if mode == PGM_RAW then
      var (c, rest) := GetByte(st.rest);
      st.(rest := rest, r := c, g := c, b := c)
    else if mode == PPM_RAW then
      var (r, rest0) := GetByte(st.rest);
      var (g, rest1) := GetByte(rest0);
      var (b, rest2) := GetByte(rest1);
      st.(rest := rest2, r := r, g := g, b := b)
    else if mode == PBM_ASCII then
      var scan := ScanInt(st.rest);
      var r := Stored(scan, st.r);
      var v := if r == 1 then 255 else 0;
      st.(rest := scan.rest, r := v, g := v, b := v)
    else if mode == PGM_ASCII then
      var scan := ScanInt(st.rest);
      var r := Stored(scan, st.r);
      st.(rest := scan.rest, r := r, g := r, b := r)
    else if mode == PPM_ASCII then ScanTriple(st)
    else st
  }

  // The last three bytes stored, one per colour, truncated to unsigned char.
  function Stored3(st: Reader): (s: seq<byte>)
    ensures |s| == 3
  {
    [st.r % 256, st.g % 256, st.b % 256]
  }

  function AfterRow(mode: int, st: Reader, n: nat): Reader
    decreases n
  {
    if n == 0 then st else AfterRow(mode, Get(mode, st, n == 1), n - 1)
  }

  // The bytes stored for the last `n` pixels of a row.
  function GetRow(mode: int, st: Reader, n: nat): (s: seq<byte>)
    ensures |s| == 3 * n
    decreases n
  {
    if n == 0 then []
    else
      var st' := Get(mode, st, n == 1);
      Stored3(st') + GetRow(mode, st', n - 1)
  }

  function GetRows(mode: int, st: Reader, w: nat, n: nat): seq<byte>
    decreases n
  {
    if n == 0 then [] else GetRow(mode, st, w) + GetRows(mode, AfterRow(mode, st, w), w, n - 1)
  }

  // ----- the whole file

  datatype ReadResult =
    | Image(mode: int, width: int, height: int, data: seq<byte>)
    | Fatal
    | Endless

  datatype Line = Line(line: seq<byte>, rest: seq<byte>) | NoLine

  // The loop over comment lines; at end of file a comment line in the buffer is read for ever.
  function SkipComments(line: seq<byte>, rest: seq<byte>): Line
    decreases |rest|
  {
    if CharAt(line, 0) != 35 then Line(line, rest)
    else if rest == [] then NoLine
    else
      var (next, rest') := Fgets(rest, line);
      SkipComments(next, rest')
  }

  datatype Head = Head(mode: int, width: int, height: int, rest: seq<byte>) | BadHead(endless: bool)

  // The sizes on `line`, then the maximum; `w0` and `h0` are what *width and *height hold before
  // the call.
  function SizesAndMaximum(mode: int, line: seq<byte>, rest: seq<byte>, w0: int, h0: int): Head
  {
    var w := ScanInt(line);
    var h := if w.Got? then ScanInt(SkipSpace(w.rest)) else Missing([]);
    var width, height := Stored(w, w0), Stored(h, h0);
    if IsBitmap(mode) then Head(mode, width, height, rest)
    else
      var max := ScanInt(rest);
      if (IsRaw(mode) && Stored(max, 0) > 255) || Stored(max, 0) <= 0 then BadHead(false)
      else Head(mode, width, height, SkipSpace(max.rest))
  }

  // Everything before the pixels.
  function ReadHead(file: seq<byte>, w0: int, h0: int): Head
  {
    var (first, rest1) := Fgets(file, []);
    var mode := CharAt(first, 1) - 48;
    if !IsValidMode(mode) || (CharAt(first, 0) != 80 && CharAt(first, 0) != 112) then BadHead(false)
    else
      var (second, rest2) := Fgets(rest1, first);
      match SkipComments(second, rest2)
      case NoLine => BadHead(true)
      case Line(line, rest3) => SizesAndMaximum(mode, line, rest3, w0, h0)
  }

  // The buffer: all zero if a dimension is not positive, since then no pixel is read.
  function Pixels(mode: int, w: int, h: int, rest: seq<byte>): seq<byte>
    requires 0 <= 3 * h * w
  {
    if w <= 0 || h <= 0 then seq(3 * h * w, _ => 0)
    else GetRows(mode, Reader(rest, 0, 0, 0, 0, 0), w, h)
  }

  function ReadFile(file: seq<byte>, w0: int, h0: int): ReadResult
  {
    match ReadHead(file, w0, h0)
    case BadHead(endless) => if endless then Endless else Fatal
    case Head(mode, w, h, rest) =>
      if 3 * h * w < 0 then Fatal
      else Image(mode, w, h, Pixels(mode, w, h, rest))
  }

  // ----- the reader's loops

  method ReadHeader(file: seq<byte>, w0: int, h0: int) returns (head: Head)
    ensures head == ReadHead(file, w0, h0)
  {
    var (line, rest) := Fgets(file, []);
    var mode := CharAt(line, 1) - 48;
    if !IsValidMode(mode) || (CharAt(line, 0) != 80 && CharAt(line, 0) != 112) {
      return BadHead(false);
    }
    var (second, rest2) := Fgets(rest, line);
    line, rest := second, rest2;
    while CharAt(line, 0) == 35
      invariant SkipComments(line, rest) == SkipComments(second, rest2)
      decreases |rest|
    {
      if rest == [] {
        return BadHead(true);
      }
      var (next, rest') := Fgets(rest, line);
      line, rest := next, rest';
    }
    var w := ScanInt(line);
    var h := if w.Got? then ScanInt(SkipSpace(w.rest)) else Missing([]);
    if mode != PBM_RAW && mode != PBM_ASCII {
      var max := ScanInt(rest);
      var img_max := Stored(max, 0);
      if (IsRaw(mode) && img_max > 255) || img_max <= 0 {
        return BadHead(false);
      }
      rest := SkipSpace(max.rest);
    }
    head := Head(mode, Stored(w, w0), Stored(h, h0), rest);
  }

  // The body of the inner loop; stores one pixel at `c`.
  method ReadPixel(mode: int, st: Reader, tex: array<byte>, c: nat, j: nat, width: nat) returns (st': Reader)
    requires c + 3 <= tex.Length
    modifies tex
    ensures st' == Get(mode, st, j + 1 == width)
    ensures tex[..] == old(tex[..c]) + Stored3(st') + old(tex[c + 3..])
  {
    var rest, count, bw, r, g, b := st.rest, st.count, st.bw, st.r, st.g, st.b;
    if mode == PBM_RAW {
      if count % 8 == 0 {
        var (byte_read, rest') := GetByte(rest);
        bw, rest := byte_read, rest';
      }
      var bit_pos := 7 - count % 8;
      r := if Bit(bw, bit_pos) then 0 else 255;
      g, b := r, r;
      count := if j + 1 == width then 0 else count + 1;
    } else if mode == PGM_RAW {
      var (c0, rest') := GetByte(rest);
      rest, r, g, b := rest', c0, c0, c0;
    } else if mode == PPM_RAW {
      var (c0, rest0) := GetByte(rest);
      var (c1, rest1) := GetByte(rest0);
      var (c2, rest2) := GetByte(rest1);
      rest, r, g, b := rest2, c0, c1, c2;
    } else if mode == PBM_ASCII {
      var scan := ScanInt(rest);
      r, rest := Stored(scan, r), scan.rest;
      if r != 1 && r != 0 {
        r := 0;
      }
      r := r * 255;
      g, b := r, r;
    } else if mode == PGM_ASCII {
      var scan := ScanInt(rest);
      r, rest := Stored(scan, r), scan.rest;
      g, b := r, r;
    } else if mode == PPM_ASCII {
      var triple := ScanTriple(st);
      rest, r, g, b := triple.rest, triple.r, triple.g, triple.b;
    }
    st' := Reader(rest, count, bw, r, g, b);
    tex[c], tex[c + 1], tex[c + 2] := r % 256, g % 256, b % 256;
  }

  // The inner loop: one row, stored from position `c` on.
  method ReadRow(mode: int, start: Reader, tex: array<byte>, c: nat, width: nat) returns (st: Reader)
    requires c + 3 * width <= tex.Length
    modifies tex
    ensures st == AfterRow(mode, start, width)
    ensures tex[..c + 3 * width] == old(tex[..c]) + GetRow(mode, start, width)
  {
    st := start;
    for j := 0 to width
      invariant AfterRow(mode, st, width - j) == AfterRow(mode, start, width)
      invariant tex[..c + 3 * j] + GetRow(mode, st, width - j) == old(tex[..c]) + GetRow(mode, start, width)
    {
      ghost var before, done := st, tex[..c + 3 * j];
      st := ReadPixel(mode, st, tex, c + 3 * j, j, width);
      assert tex[..c + 3 * (j + 1)] == done + Stored3(st);
      assert GetRow(mode, before, width - j) == Stored3(st) + GetRow(mode, st, width - j - 1);
    }
  }

  lemma RowFits(i: nat, w: nat, h: nat)
    requires i < h
    ensures 3 * (w * i) + 3 * w <= 3 * (w * h) && w * (i + 1) == w * i + w
  {
    assert w * (i + 1) <= w * h;
  }

  // The outer loop.
  method ReadRows(mode: int, rest: seq<byte>, w: nat, h: nat, tex: array<byte>)
    requires tex.Length == 3 * (w * h)
    modifies tex
    ensures tex[..] == GetRows(mode, Reader(rest, 0, 0, 0, 0, 0), w, h)
  {
    var st := Reader(rest, 0, 0, 0, 0, 0);
    ghost var total := GetRows(mode, st, w, h);
    for i := 0 to h
      invariant 3 * (w * i) <= tex.Length
      invariant tex[..3 * (w * i)] + GetRows(mode, st, w, h - i) == total
    {
      RowFits(i, w, h);
      var c := 3 * (w * i);
      ghost var before, done := st, tex[..c];
      st := ReadRow(mode, st, tex, c, w);
      assert 3 * (w * (i + 1)) == c + 3 * w;
      assert tex[..c + 3 * w] == done + GetRow(mode, before, w);
      RowStep(mode, before, w, h - i, done, total);
    }
    assert tex[..3 * (w * h)] == tex[..];
  }

  lemma RowStep(mode: int, st: Reader, w: nat, n: nat, done: seq<byte>, total: seq<byte>)
    requires n > 0 && done + GetRows(mode, st, w, n) == total
    ensures done + GetRow(mode, st, w) + GetRows(mode, AfterRow(mode, st, w), w, n - 1) == total
  {
  }

  // ReadPPM; `tex` is the buffer it returns.
  method ReadPPM(file: seq<byte>, w0: int, h0: int) returns (res: ReadResult, tex: array<byte>)
    ensures res == ReadFile(file, w0, h0)
    ensures res.Image? ==> tex[..] == res.data && |res.data| == 3 * res.height * res.width
  {
    tex := new byte[0];
    var head := ReadHeader(file, w0, h0);
    if head.BadHead? {
      return if head.endless then Endless else Fatal, tex;
    }
    var w, h, mode := head.width, head.height, head.mode;
    var img_size := 3 * h * w;
    if img_size < 0 {
      return Fatal, tex;
    }
    tex := new byte[img_size](_ => 0);
    assert tex[..] == seq(img_size, _ => 0);
    if w > 0 && h > 0 {
      assert img_size == 3 * (w * h);
      ReadRows(mode, head.rest, w, h, tex);
    }
    res := Image(mode, w, h, tex[..]);
  }
}
