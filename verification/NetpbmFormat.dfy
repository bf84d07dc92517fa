/** Images, the six modes, and what the writer puts into a file. */
module NetpbmFormat {
  import opened Text

  const PBM_ASCII := 1
  const PGM_ASCII := 2
  const PPM_ASCII := 3
  const PBM_RAW := 4
  const PGM_RAW := 5
  const PPM_RAW := 6

  predicate IsValidMode(mode: int)
  {
    1 <= mode <= 6
  }

  predicate IsRaw(mode: int)
  {
    mode == PBM_RAW || mode == PGM_RAW || mode == PPM_RAW
  }

  predicate IsBitmap(mode: int)
  {
    mode == PBM_RAW || mode == PBM_ASCII
  }

  datatype Pixel = Pixel(r: byte, g: byte, b: byte)

  function Grey(p: Pixel): byte
  {
    (p.r + p.g + p.b) / 3
  }

  function DarkBit(p: Pixel): (b: nat)
    ensures b <= 1
  {
    if Grey(p) < 128 then 1 else 0
  }

  // The grey value is the mean of the three components, rounded down.
  lemma GreyIsMean(p: Pixel)
    ensures 3 * Grey(p) <= p.r + p.g + p.b < 3 * Grey(p) + 3
  {
  }

  // A pixel is printed dark if its components add up to less than half of 3 * 256.
  lemma DarkBelowHalf(p: Pixel)
    ensures DarkBit(p) == 1 <==> p.r + p.g + p.b < 384
  {
  }

  // ----- an image as rows of pixels, and as the buffer of 3 * width * height bytes

  function RowBytes(row: seq<Pixel>): (s: seq<byte>)
    ensures |s| == 3 * |row|
  {
    if row == [] then [] else [row[0].r, row[0].g, row[0].b] + RowBytes(row[1..])
  }

  function ImageBytes(rows: seq<seq<Pixel>>): seq<byte>
  {
    if rows == [] then [] else RowBytes(rows[0]) + ImageBytes(rows[1..])
  }

  function PixelAt(ptr: seq<byte>, k: nat): Pixel
    requires 3 * k + 2 < |ptr|
  {
    Pixel(ptr[3 * k], ptr[3 * k + 1], ptr[3 * k + 2])
  }

  lemma IndexInside(x: nat, y: nat, w: nat, h: nat)
    requires x < w && y < h
    ensures 0 <= y * w + x < w * h
  {
    assert (y + 1) * w <= h * w;
  }

  // Row `y` of the buffer.
  function RowAt(ptr: seq<byte>, w: nat, h: nat, y: nat): (row: seq<Pixel>)
    requires |ptr| == 3 * (w * h) && y < h
    ensures |row| == w
  {
    seq(w, (x: nat) requires x < w => IndexInside(x, y, w, h); PixelAt(ptr, y * w + x))
  }

  // The rows in the order they are written: bottom-up if the height is negative.
  function WrittenRows(ptr: seq<byte>, w: nat, height: int): (rows: seq<seq<Pixel>>)
    requires |ptr| == 3 * (w * Abs(height))
    ensures |rows| == Abs(height) && forall y :: 0 <= y < |rows| ==> |rows[y]| == w
  {
    var h := Abs(height);
    seq(h, (y: nat) requires y < h => RowAt(ptr, w, h, if height < 0 then h - 1 - y else y))
  }

  function Abs(n: int): nat
  {
    if n < 0 then -n else n
  }

  // ----- the writer, pixel by pixel: the counter `i`, the bits collected so far, the output

  datatype Writer = Writer(i: int, bw: byte, out: seq<byte>)

  // The % of C: the remainder has the sign of the dividend.
  function Rem(n: int, d: int): (r: int)
    requires d > 0
    ensures -d < r < d
  {
    if n < 0 then -(-n % d) else n % d
  }

  // v << k
  function ShiftLeft(v: nat, k: nat): nat
  {
    if k == 0 then v else 2 * ShiftLeft(v, k - 1)
  }

  function EndItem(st: Writer, text: seq<byte>, every: nat): Writer
    requires every > 0
  {
    var out := st.out + text;
    st.(i := st.i + 1, out := if Rem(st.i + 1, every) == 0 then out + [NEWLINE] else out)
  }

  function PutBit(st: Writer, bit: nat, endOfRow: bool): Writer
    requires bit <= 1
  {
    var bw: byte := (2 * st.bw + bit) % 256;
    var i := st.i + 1;
    if Rem(i, 8) == 0 then Writer(i, 0, st.out + [bw])
    else if endOfRow then Writer(0, 0, st.out + [ShiftLeft(bw, 8 - Rem(i, 8)) % 256])
    else Writer(i, bw, st.out)
  }

  function Put(mode: int, st: Writer, p: Pixel, endOfRow: bool): Writer
  {
    if mode == PPM_RAW then st.(out := st.out + [p.r, p.g, p.b])
    else if mode == PPM_ASCII then
      EndItem(st, PrintNat(p.r) + [SPACE] + PrintNat(p.g) + [SPACE] + PrintNat(p.b) + [SPACE], 5)
    else if mode == PGM_RAW then st.(out := st.out + [Grey(p)])
    else if mode == PGM_ASCII then EndItem(st, PrintNat(Grey(p)) + [SPACE], 15)
    else if mode == PBM_ASCII then EndItem(st, PrintNat(DarkBit(p)) + [SPACE], 15)
    else if mode == PBM_RAW then PutBit(st, DarkBit(p), endOfRow)
    else st
  }

  function PutRow(mode: int, st: Writer, row: seq<Pixel>): Writer
    decreases |row|
  {
    if row == [] then st else PutRow(mode, Put(mode, st, row[0], |row| == 1), row[1..])
  }

  function PutRows(mode: int, st: Writer, rows: seq<seq<Pixel>>): Writer
    decreases |rows|
  {
    if rows == [] then st else PutRows(mode, PutRow(mode, st, rows[0]), rows[1..])
  }

  // ----- the whole file

  const COMMENT := "# File created " + "by Chris Wyman's " + "PPM Library on "

  function Ascii(s: string): (r: seq<byte>)
    ensures |r| == |s|
  {
    seq(|s|, (i: nat) requires i < |s| => s[i] as int % 256)
  }

  function Header(mode: nat, stamp: seq<byte>, w: int, h: nat): seq<byte>
  {
    [80] + PrintNat(mode) + [NEWLINE] +
    (Ascii(COMMENT) + stamp + [NEWLINE] +
     (PrintInt(w) + [SPACE] + PrintNat(h) + [NEWLINE] +
      if IsBitmap(mode) then [] else PrintNat(255) + [NEWLINE]))
  }

  // `i` is the value the uninitialised counter of the writer happens to have.
  function FileOf(mode: nat, stamp: seq<byte>, w: int, rows: seq<seq<Pixel>>, i: int): seq<byte>
  {
    PutRows(mode, Writer(i, 0, Header(mode, stamp, w, |rows|)), rows).out + [NEWLINE]
  }

  datatype WriteResult = Written(file: seq<byte>) | Unsupported

  // How many times a loop that counts from 0 below `n` runs.
  function Rounds(n: int): nat
  {
    if n < 0 then 0 else n
  }

  // What WritePPM leaves behind; `stamp` is the text of ctime without its newline.
  function WriteFile(mode: int, stamp: seq<byte>, w: int, height: int, ptr: seq<byte>, i: int): WriteResult
    requires |ptr| == 3 * (Rounds(w) * Abs(height))
  {
    if mode < 0 then Unsupported
    else Written(FileOf(mode, stamp, w, WrittenRows(ptr, Rounds(w), height), i))
  }

  // ----- the writer's loops

  // The body of the inner loop.
  method WritePixel(mode: int, st: Writer, r: byte, g: byte, b: byte, x: nat, width: nat) returns (res: Writer)
    ensures res == Put(mode, st, Pixel(r, g, b), x + 1 == width)
  {
    var i, bw, out := st.i, st.bw, st.out;
    if mode == PPM_RAW {
      out := out + [r, g, b];
    } else if mode == PPM_ASCII {
      out := out + (PrintNat(r) + [SPACE] + PrintNat(g) + [SPACE] + PrintNat(b) + [SPACE]);
      i := i + 1;
      if Rem(i, 5) == 0 {
        out := out + [NEWLINE];
      }
    } else if mode == PGM_RAW {
      out := out + [(r + g + b) / 3];
    } else if mode == PGM_ASCII {
      out := out + (PrintNat((r + g + b) / 3) + [SPACE]);
      i := i + 1;
      if Rem(i, 15) == 0 {
        out := out + [NEWLINE];
      }
    } else if mode == PBM_ASCII {
      out := out + (PrintNat(if (r + g + b) / 3 < 128 then 1 else 0) + [SPACE]);
      i := i + 1;
      if Rem(i, 15) == 0 {
        out := out + [NEWLINE];
      }
    } else if mode == PBM_RAW {
      var add := if (r + g + b) / 3 < 128 then 1 else 0;
      bw := (2 * bw + add) % 256;
      i := i + 1;
      if Rem(i, 8) == 0 {
        out, bw := out + [bw], 0;
      } else if x + 1 == width {
        var bits := 8 - Rem(i, 8);
        bw := ShiftLeft(bw, bits) % 256;
        out, bw, i := out + [bw], 0, 0;
      }
    }
    res := Writer(i, bw, out);
  }

  // The inner loop: row `y` of the buffer, left to right.
  method WriteRow(mode: int, start: Writer, width: nat, h: nat, y: nat, ptr: array<byte>) returns (st: Writer)
    requires ptr.Length == 3 * (width * h) && y < h
    ensures st == PutRow(mode, start, RowAt(ptr[..], width, h, y))
  {
    st := start;
    ghost var row := RowAt(ptr[..], width, h, y);
    assert row[0..] == row;
    for x := 0 to width
      invariant PutRow(mode, st, row[x..]) == PutRow(mode, start, row)
    {
      IndexInside(x, y, width, h);
      var at := 3 * (y * width + x);
      assert row[x] == Pixel(ptr[at], ptr[at + 1], ptr[at + 2]);
      assert row[x..][0] == row[x] && row[x..][1..] == row[x + 1..];
      st := WritePixel(mode, st, ptr[at], ptr[at + 1], ptr[at + 2], x, width);
    }
    assert row[width..] == [];
  }

  // The outer loop, upwards or downwards.
  method WriteRows(mode: int, start: Writer, width: nat, height: int, ptr: array<byte>) returns (st: Writer)
    requires ptr.Length == 3 * (width * Abs(height))
    ensures st == PutRows(mode, start, WrittenRows(ptr[..], width, height))
  {
    var inverted := height < 0;
    var h := Abs(height);
    st := start;
    ghost var rows := WrittenRows(ptr[..], width, height);
    assert rows[0..] == rows;
    var y: int := if inverted then h - 1 else 0;
    ghost var k := 0;
    while if inverted then y >= 0 else y < h
      invariant 0 <= k <= h && y == if inverted then h - 1 - k else k
      invariant PutRows(mode, st, rows[k..]) == PutRows(mode, start, rows)
      decreases h - k
    {
      assert rows[k] == RowAt(ptr[..], width, h, y);
      assert rows[k..][0] == rows[k] && rows[k..][1..] == rows[k + 1..];
      st := WriteRow(mode, st, width, h, y, ptr);
      y := if inverted then y - 1 else y + 1;
      k := k + 1;
    }
    assert rows[k..] == [];
  }

  method WritePPM(mode: int, stamp: seq<byte>, width: int, height: int, ptr: array<byte>, uninitialised: int)
    returns (res: WriteResult)
    requires ptr.Length == 3 * (Rounds(width) * Abs(height))
    ensures res == WriteFile(mode, stamp, width, height, ptr[..], uninitialised)
    ensures res.Unsupported? <==> mode < 0
  {
    if mode < 0 {
      return Unsupported;
    }
    var st := Writer(uninitialised, 0, Header(mode, stamp, width, Abs(height)));
    st := WriteRows(mode, st, Rounds(width), height, ptr);
    res := Written(st.out + [NEWLINE]);
  }
}
