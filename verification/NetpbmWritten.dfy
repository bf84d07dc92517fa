/** What stands in the files that the writer leaves: every byte and number, in terms of the pixels. */
module NetpbmWritten {
  import opened Text
  import opened NetpbmFormat
  import opened NetpbmReader
  import opened NetpbmBits
  import opened NetpbmRoundTrip
  import opened NetpbmForeign
  import opened NetpbmFiles

  // ----- the header

  lemma HeaderText(mode: nat, stamp: seq<byte>, w: int, h: nat)
    ensures Header(mode, stamp, w, h) ==
            [80] + PrintNat(mode) + [10] +
            (Ascii("# File created " + "by Chris Wyman's " + "PPM Library on ") + stamp + [10]) +
            (PrintInt(w) + [32] + PrintInt(h) + [10]) +
            if mode == 1 || mode == 4 then [] else [50, 53, 53, 10]
  {
    Max255();
    Assoc([80] + PrintNat(mode) + [NEWLINE],
          Ascii(COMMENT) + stamp + [NEWLINE],
          PrintInt(w) + [SPACE] + PrintNat(h) + [NEWLINE],
          if IsBitmap(mode) then [] else PrintNat(255) + [NEWLINE]);
  }

  lemma Assoc(a: seq<byte>, b: seq<byte>, c: seq<byte>, d: seq<byte>)
    ensures a + (b + (c + d)) == a + b + c + d
  {
  }

  lemma Max255()
    ensures PrintNat(255) == [50, 53, 53]
  {
    assert PrintNat(25) == [50, 53];
  }

  // ----- pixels in the order they are written

  function Flat(rows: seq<seq<Pixel>>): seq<Pixel>
  {
    if rows == [] then [] else rows[0] + Flat(rows[1..])
  }

  lemma {:induction false} FlatAt(rows: seq<seq<Pixel>>, w: nat, x: nat, y: nat)
    requires forall k :: 0 <= k < |rows| ==> |rows[k]| == w
    requires x < w && y < |rows|
    ensures 0 <= y * w + x < |Flat(rows)| && Flat(rows)[y * w + x] == rows[y][x]
  {
    if y > 0 {
      FlatAt(rows[1..], w, x, y - 1);
      assert y * w + x == w + ((y - 1) * w + x);
    }
  }

  lemma {:induction false} FlatSize(rows: seq<seq<Pixel>>, w: nat)
    requires forall k :: 0 <= k < |rows| ==> |rows[k]| == w
    ensures |Flat(rows)| == w * |rows|
  {
    if rows != [] {
      FlatSize(rows[1..], w);
      Distribute(|rows| - 1, w);
    }
  }

  // Pixel (x, y) of the file, from the buffer of the caller, whose rows go upwards if the height
  // is negative.
  function Source(ptr: seq<byte>, w: nat, height: int, x: nat, y: nat): Pixel
    requires |ptr| == 3 * (w * Abs(height)) && x < w && y < Abs(height)
  {
    var row := if height < 0 then Abs(height) - 1 - y else y;
    IndexInside(x, row, w, Abs(height));
    Pixel(ptr[3 * (row * w + x)], ptr[3 * (row * w + x) + 1], ptr[3 * (row * w + x) + 2])
  }

  lemma RowSource(ptr: seq<byte>, w: nat, height: int, x: nat, y: nat)
    requires |ptr| == 3 * (w * Abs(height)) && x < w && y < Abs(height)
    ensures WrittenRows(ptr, w, height)[y][x] == Source(ptr, w, height, x, y)
  {
    var row := if height < 0 then Abs(height) - 1 - y else y;
    IndexInside(x, row, w, Abs(height));
    assert WrittenRows(ptr, w, height)[y] == RowAt(ptr, w, Abs(height), row);
    assert RowAt(ptr, w, Abs(height), row)[x] == PixelAt(ptr, row * w + x);
  }

  lemma SourceAt(ptr: seq<byte>, w: nat, height: int, x: nat, y: nat)
    requires |ptr| == 3 * (w * Abs(height)) && x < w && y < Abs(height)
    ensures var rows := WrittenRows(ptr, w, height);
            && 0 <= y * w + x < |Flat(rows)| == w * Abs(height)
            && Flat(rows)[y * w + x] == Source(ptr, w, height, x, y)
  {
    var rows := WrittenRows(ptr, w, height);
    FlatAt(rows, w, x, y);
    FlatSize(rows, w);
    RowSource(ptr, w, height, x, y);
  }

  // ----- text and bytes, pixel after pixel

  lemma {:induction false} RowTextJoin(mode: int, i: int, a: seq<Pixel>, b: seq<Pixel>)
    ensures RowText(mode, i, a + b) == RowText(mode, i, a) + RowText(mode, AfterText(mode, i, |a|), b)
    decreases |a|
  {
    if a == [] {
      assert [] + b == b;
    } else {
      assert (a + b)[1..] == a[1..] + b;
      RowTextJoin(mode, Next(mode, i), a[1..], b);
    }
  }

  lemma {:induction false} RowsTextFlat(mode: int, i: int, rows: seq<seq<Pixel>>)
    ensures RowsText(mode, i, rows) == RowText(mode, i, Flat(rows))
    decreases |rows|
  {
    if rows != [] {
      RowTextJoin(mode, i, rows[0], Flat(rows[1..]));
      RowsTextFlat(mode, AfterText(mode, i, |rows[0]|), rows[1..]);
    }
  }

  lemma {:induction false} GreyBytes(i: int, row: seq<Pixel>, k: nat)
    requires k < |row|
    ensures |RowText(PGM_RAW, i, row)| == |row| && RowText(PGM_RAW, i, row)[k] == Grey(row[k])
  {
    if |row| > 1 {
      GreyBytes(i, row[1..], if k > 0 then k - 1 else 0);
    }
  }

  lemma {:induction false} ColourBytes(i: int, row: seq<Pixel>, k: nat)
    requires k < |row|
    ensures var s := RowText(PPM_RAW, i, row); |s| == 3 * |row| && PixelAt(s, k) == row[k]
  {
    var more := RowText(PPM_RAW, i, row[1..]);
    assert RowText(PPM_RAW, i, row) == [row[0].r, row[0].g, row[0].b] + more;
    if |row| > 1 {
      ColourBytes(i, row[1..], if k > 0 then k - 1 else 0);
      if k > 0 {
        Shifted([row[0].r, row[0].g, row[0].b], more, 1, k - 1);
      }
    }
  }

  // The file is the header, the data and one newline.
  lemma FileParts(mode: nat, stamp: seq<byte>, w: nat, height: int, ptr: seq<byte>, i: int)
    requires |ptr| == 3 * (w * Abs(height)) && IsValidMode(mode)
    ensures WriteFile(mode, stamp, w, height, ptr, i) ==
            Written(Header(mode, stamp, w, Abs(height)) + (Data(mode, i, WrittenRows(ptr, w, height)) + [NEWLINE]))
  {
    var rows := WrittenRows(ptr, w, height);
    PutData(mode, Writer(i, 0, Header(mode, stamp, w, |rows|)), rows);
  }

  lemma DataByte(header: seq<byte>, data: seq<byte>, k: nat)
    requires k < |data|
    ensures var file := header + (data + [NEWLINE]);
            |file| == |header| + |data| + 1 && file[|header| + k] == data[k]
  {
  }

  // With a mode that is none of the six nothing stands between the header and the last newline.
  lemma OtherModesFile(mode: nat, stamp: seq<byte>, w: nat, height: int, ptr: seq<byte>, i: int)
    requires |ptr| == 3 * (w * Abs(height)) && (mode == 0 || mode > 6)
    ensures WriteFile(mode, stamp, w, height, ptr, i) == Written(Header(mode, stamp, w, Abs(height)) + [NEWLINE])
  {
    PutNothing(mode, Writer(i, 0, Header(mode, stamp, w, Abs(height))), WrittenRows(ptr, w, height));
  }

  // A raw grey file holds, behind the header, the mean of the three components of every pixel.
  lemma GreyFile(stamp: seq<byte>, w: nat, height: int, ptr: seq<byte>, i: int, x: nat, y: nat)
    requires |ptr| == 3 * (w * Abs(height)) && x < w && y < Abs(height)
    ensures var file, n := WriteFile(PGM_RAW, stamp, w, height, ptr, i).file, |Header(PGM_RAW, stamp, w, Abs(height))|;
            && |file| == n + w * Abs(height) + 1
            && 0 <= y * w + x < w * Abs(height)
            && var p, v := Source(ptr, w, height, x, y), file[n + (y * w + x)];
               3 * v <= p.r + p.g + p.b < 3 * v + 3
  {
    hide WriteFile, Header, Source, WrittenRows, Flat, RowText, RowsText;
    var rows, k := WrittenRows(ptr, w, height), y * w + x;
    FileParts(PGM_RAW, stamp, w, height, ptr, i);
    SourceAt(ptr, w, height, x, y);
    RowsTextFlat(PGM_RAW, i, rows);
    GreyBytes(i, Flat(rows), k);
    DataByte(Header(PGM_RAW, stamp, w, Abs(height)), Data(PGM_RAW, i, rows), k);
    GreyIsMean(Source(ptr, w, height, x, y));
  }

  // A raw colour file holds the three components.
  lemma ColourFile(stamp: seq<byte>, w: nat, height: int, ptr: seq<byte>, i: int, x: nat, y: nat)
    requires |ptr| == 3 * (w * Abs(height)) && x < w && y < Abs(height)
    ensures var file, n := WriteFile(PPM_RAW, stamp, w, height, ptr, i).file, |Header(PPM_RAW, stamp, w, Abs(height))|;
            && |file| == n + 3 * (w * Abs(height)) + 1
            && 0 <= y * w + x < w * Abs(height)
            && var k := n + 3 * (y * w + x);
               Pixel(file[k], file[k + 1], file[k + 2]) == Source(ptr, w, height, x, y)
  {
    hide WriteFile, Header, Source, WrittenRows, Flat, RowText, RowsText;
    var header, rows, k := Header(PPM_RAW, stamp, w, Abs(height)), WrittenRows(ptr, w, height), y * w + x;
    FileParts(PPM_RAW, stamp, w, height, ptr, i);
    SourceAt(ptr, w, height, x, y);
    RowsTextFlat(PPM_RAW, i, rows);
    ColourBytes(i, Flat(rows), k);
    var data := Data(PPM_RAW, i, rows);
    DataByte(header, data, 3 * k);
    DataByte(header, data, 3 * k + 1);
    DataByte(header, data, 3 * k + 2);
  }

  // ----- packed bits

  lemma {:induction false} PackedBit(bs: seq<bit>, x: nat)
    requires x < |bs|
    ensures |PackBits(bs)| == (|bs| + 7) / 8
    ensures Bit(PackBits(bs)[x / 8], 7 - x % 8) <==> bs[x] == 1
    decreases |bs|
  {
    PackedLength(bs);
    if x < 8 {
      BitOfByte(Chunk8(bs), x);
    } else {
      PackedBit(After8(bs), x - 8);
      assert PackBits(bs)[x / 8] == PackBits(After8(bs))[x / 8 - 1];
    }
  }

  lemma {:induction false} PackedRowsBit(i: int, rows: seq<seq<Pixel>>, w: nat, x: nat, y: nat)
    requires forall k :: 0 <= k < |rows| ==> |rows[k]| == w
    requires i % 8 == 0 && (w % 8 == 0 || i + w > 0) && x < w && y < |rows|
    ensures |RowsBits(i, rows)| == |rows| * ((w + 7) / 8) && 0 <= y * ((w + 7) / 8) + x / 8 < |RowsBits(i, rows)|
    ensures Bit(RowsBits(i, rows)[y * ((w + 7) / 8) + x / 8], 7 - x % 8) <==> DarkBit(rows[y][x]) == 1
    decreases |rows|
  {
    hide Bit, PackBits, Bits, DarkBit, Stream;
    var n := (w + 7) / 8;
    var row, more := PackBits(Bits(rows[0])), RowsBits(CounterAfter(i, w), rows[1..]);
    GoodStream(i, Bits(rows[0]));
    PackedBit(Bits(rows[0]), if y == 0 then x else 0);
    BitsAt(rows[0], if y == 0 then x else 0);
    assert RowsBits(i, rows) == row + more && |row| == n;
    PackedRows(i, rows, w);
    BytePosition(n, x / 8, y, |rows|);
    if y > 0 {
      PackedRowsBit(CounterAfter(i, w), rows[1..], w, x, y - 1);
      assert (row + more)[n + ((y - 1) * n + x / 8)] == more[(y - 1) * n + x / 8];
    }
  }

  lemma BitsAt(row: seq<Pixel>, x: nat)
    requires x < |row|
    ensures Bits(row)[x] == DarkBit(row[x])
  {
  }

  lemma BytePosition(n: nat, b: nat, y: nat, h: nat)
    requires b < n && y < h
    ensures 0 <= y * n + b < h * n
    ensures y == 0 ==> y * n + b == b
    ensures y > 0 ==> y * n + b == n + ((y - 1) * n + b)
  {
    assert (y + 1) * n <= h * n;
  }

  lemma PackedRows(i: int, rows: seq<seq<Pixel>>, w: nat)
    requires w > 0 && rows != [] && forall y :: 0 <= y < |rows| ==> |rows[y]| == w
    requires i % 8 == 0
    ensures |RowsBits(i, rows)| == |rows| * ((w + 7) / 8)
  {
    PackedSize(i, rows, w);
    Distribute(|rows| - 1, (w + 7) / 8);
  }

  lemma GoodStream(i: int, bs: seq<bit>)
    requires i % 8 == 0 && (|bs| % 8 == 0 || i + |bs| > 0)
    ensures Stream(i, bs) == bs
  {
    assert Zeros(0) + bs == bs;
  }

  // A packed file written with a good counter holds a row of ceil(w / 8) bytes for each row of
  // pixels; from the left, a bit is set if and only if the pixel is dark.
  lemma PackedFile(stamp: seq<byte>, w: nat, height: int, ptr: seq<byte>, i: int, x: nat, y: nat)
    requires |ptr| == 3 * (w * Abs(height)) && x < w && y < Abs(height)
    requires i % 8 == 0 && (w % 8 == 0 || i + w > 0)
    ensures var file, n := WriteFile(PBM_RAW, stamp, w, height, ptr, i).file, |Header(PBM_RAW, stamp, w, Abs(height))|;
            var k := y * ((w + 7) / 8) + x / 8;
            && |file| == n + Abs(height) * ((w + 7) / 8) + 1
            && 0 <= k && n + k < |file|
            && var p := Source(ptr, w, height, x, y);
               Bit(file[n + k], 7 - x % 8) <==> p.r + p.g + p.b < 384
  {
    hide Bit, WriteFile, Header, Source, WrittenRows, RowsBits, DarkBit;
    var rows, p := WrittenRows(ptr, w, height), Source(ptr, w, height, x, y);
    FileParts(PBM_RAW, stamp, w, height, ptr, i);
    PackedRowsBit(i, rows, w, x, y);
    DataByte(Header(PBM_RAW, stamp, w, Abs(height)), Data(PBM_RAW, i, rows), y * ((w + 7) / 8) + x / 8);
    DarkBelowHalf(p);
    RowSource(ptr, w, height, x, y);
  }

  // ----- numbers

  // What is printed for a pixel.
  predicate Prints(mode: int, ts: seq<Token>, p: Pixel)
    requires |ts| == PerPixel(mode)
  {
    if mode == PPM_ASCII then
      ts[0].n == p.r && ts[1].n == p.g && ts[2].n == p.b && ts[0].space == ts[1].space == [32]
    else if mode == PGM_ASCII then 3 * ts[0].n <= p.r + p.g + p.b < 3 * ts[0].n + 3
    else ts[0].n == if p.r + p.g + p.b < 384 then 1 else 0
  }

  function TokensOf(mode: int, i: int, p: Pixel): (ts: seq<Token>)
    ensures |ts| == PerPixel(mode)
  {
    var end := Separator(mode, i);
    if mode == PPM_ASCII then [Token(p.r, [SPACE]), Token(p.g, [SPACE]), Token(p.b, end)]
    else [Token(if mode == PGM_ASCII then Grey(p) else DarkBit(p), end)]
  }

  lemma PieceTokens(mode: int, i: int, p: Pixel)
    requires 1 <= mode <= 3
    ensures var ts := TokensOf(mode, i, p);
            && TokensText(ts) == Piece(mode, i, p) && Spaced(ts) && Prints(mode, ts, p)
            && ts[|ts| - 1].space == LineEnd(mode, i + 1)
  {
    GreyIsMean(p);
    DarkBelowHalf(p);
    var ts := TokensOf(mode, i, p);
    if mode == PPM_ASCII {
      assert ts[1..] == [ts[1], ts[2]] && ts[1..][1..] == [ts[2]] && ts[1..][1..][1..] == [];
      assert TokensText([ts[2]]) == PrintInt(p.b) + (Separator(mode, i) + []);
      assert TokensText([ts[1], ts[2]]) == PrintInt(p.g) + ([SPACE] + TokensText([ts[2]]));
      assert TokensText(ts) == PrintInt(p.r) + ([SPACE] + TokensText([ts[1], ts[2]]));
    } else {
      assert ts[1..] == [];
      assert TokensText(ts) == PrintInt(ts[0].n) + (Separator(mode, i) + []);
    }
  }

  lemma {:induction false} TokensJoin(a: seq<Token>, b: seq<Token>)
    ensures TokensText(a + b) == TokensText(a) + TokensText(b)
  {
    hide PrintInt;
    if a == [] {
      assert a + b == b && [] + TokensText(b) == TokensText(b);
    } else {
      assert (a + b)[1..] == a[1..] + b;
      TokensJoin(a[1..], b);
      Assoc(PrintInt(a[0].n), a[0].space, TokensText(a[1..]), TokensText(b));
      assert PrintInt(a[0].n) + (a[0].space + TokensText(a[1..])) == PrintInt(a[0].n) + a[0].space + TokensText(a[1..]);
    }
  }

  // The tokens of pixel number `q`.
  function TokensAt(mode: int, ts: seq<Token>, q: nat): (r: seq<Token>)
    requires if mode == PPM_ASCII then 3 * q + 3 <= |ts| else q < |ts|
    ensures |r| == PerPixel(mode)
  {
    if mode == PPM_ASCII then ts[3 * q..3 * q + 3] else ts[q..q + 1]
  }

  // Pixel number `q` is `p`, and a newline follows it if it is the last of five or fifteen.
  predicate TextAt(mode: int, i: int, ts: seq<Token>, q: int, p: Pixel)
  {
    && 0 <= q
    && (if mode == PPM_ASCII then 3 * q + 3 <= |ts| else q < |ts|)
    && Prints(mode, TokensAt(mode, ts, q), p)
    && TokensAt(mode, ts, q)[PerPixel(mode) - 1].space == LineEnd(mode, i + q + 1)
  }

  function LineEnd(mode: int, count: int): seq<byte>
  {
    if count % (if mode == 3 then 5 else 15) == 0 then [32, 10] else [32]
  }

  lemma TextShift(mode: int, i: int, one: seq<Token>, more: seq<Token>, q: nat, p: Pixel)
    requires |one| == PerPixel(mode) && TextAt(mode, i + 1, more, q, p)
    ensures TextAt(mode, i, one + more, q + 1, p)
  {
    assert TokensAt(mode, one + more, q + 1) == TokensAt(mode, more, q);
  }

  // The text modes print the components, the mean or the bit, with single spaces, and a newline
  // after every fifth pixel in colour and every fifteenth otherwise, counted from the counter.
  lemma {:induction false} TextOfPixels(mode: int, i: int, pixels: seq<Pixel>) returns (ts: seq<Token>)
    requires 1 <= mode <= 3
    ensures |ts| == PerPixel(mode) * |pixels| && Spaced(ts) && TokensText(ts) == RowText(mode, i, pixels)
    ensures forall q :: 0 <= q < |pixels| ==> TextAt(mode, i, ts, q, pixels[q])
    decreases |pixels|
  {
    if pixels == [] {
      ts := [];
      assert PerPixel(mode) * 0 == 0;
    } else {
      hide Piece, Prints, TextAt, TokensText, TokensOf, RowText, LineEnd, Spaced, PerPixel;
      var one := TokensOf(mode, i, pixels[0]);
      PieceTokens(mode, i, pixels[0]);
      var more := TextOfPixels(mode, i + 1, pixels[1..]);
      ts := one + more;
      TextCons(mode, i, pixels, one, more);
      FirstText(mode, i, one, more, pixels[0]);
      forall q | 1 <= q < |pixels| ensures TextAt(mode, i, ts, q, pixels[q]) {
        TextShift(mode, i, one, more, q - 1, pixels[q]);
      }
    }
  }

  lemma TextCons(mode: int, i: int, pixels: seq<Pixel>, one: seq<Token>, more: seq<Token>)
    requires 1 <= mode <= 3 && pixels != [] && Spaced(one) && Spaced(more)
    requires |one| == PerPixel(mode) && |more| == PerPixel(mode) * |pixels[1..]|
    requires TokensText(one) == Piece(mode, i, pixels[0]) && TokensText(more) == RowText(mode, i + 1, pixels[1..])
    ensures |one + more| == PerPixel(mode) * |pixels| && Spaced(one + more)
    ensures TokensText(one + more) == RowText(mode, i, pixels)
  {
    hide Piece, TokensText;
    TokensJoin(one, more);
  }

  lemma FirstText(mode: int, i: int, one: seq<Token>, more: seq<Token>, p: Pixel)
    requires |one| == PerPixel(mode) && Prints(mode, one, p) && one[|one| - 1].space == LineEnd(mode, i + 1)
    ensures TextAt(mode, i, one + more, 0, p)
  {
    assert TokensAt(mode, one + more, 0) == one;
  }

  lemma TextFile(mode: nat, stamp: seq<byte>, w: nat, height: int, ptr: seq<byte>, i: int) returns (ts: seq<Token>)
    requires |ptr| == 3 * (w * Abs(height)) && 1 <= mode <= 3
    ensures |ts| == PerPixel(mode) * (w * Abs(height)) && Spaced(ts)
    ensures WriteFile(mode, stamp, w, height, ptr, i) ==
            Written(Header(mode, stamp, w, Abs(height)) + (TokensText(ts) + [NEWLINE]))
    ensures forall x: nat, y: nat :: x < w && y < Abs(height) ==>
              TextAt(mode, i, ts, y * w + x, Source(ptr, w, height, x, y))
  {
    var rows := WrittenRows(ptr, w, height);
    FileParts(mode, stamp, w, height, ptr, i);
    RowsTextFlat(mode, i, rows);
    FlatSize(rows, w);
    ts := TextOfPixels(mode, i, Flat(rows));
    forall x: nat, y: nat | x < w && y < Abs(height)
      ensures TextAt(mode, i, ts, y * w + x, Source(ptr, w, height, x, y))
    {
      SourceAt(ptr, w, height, x, y);
    }
  }

  // ----- what comes back, pixel by pixel

  // What the reader returns for a pixel.
  predicate Returns(mode: int, p: Pixel, q: Pixel)
  {
    if mode == PPM_ASCII || mode == PPM_RAW then q == p
    else
      && q.r == q.g == q.b
      && if mode == PGM_ASCII || mode == PGM_RAW then 3 * q.r <= p.r + p.g + p.b < 3 * q.r + 3
         else if mode == PBM_RAW then q.r == if p.r + p.g + p.b < 384 then 0 else 255
         else q.r == if p.r + p.g + p.b < 384 then 255 else 0
  }

  lemma ProjectReturns(mode: int, p: Pixel)
    requires IsValidMode(mode)
    ensures Returns(mode, p, Project(mode, p))
  {
    GreyIsMean(p);
    DarkBelowHalf(p);
  }

  lemma PixelsComeBack(mode: nat, stamp: seq<byte>, w: nat, rows: seq<seq<Pixel>>, i: int, w0: int, h0: int,
                       x: nat, y: nat)
    requires IsValidMode(mode) && StampOk(stamp) && Rectangular(rows, w) && ComesBack(mode, i, w, rows)
    requires x < w && y < |rows|
    ensures var back := ReadBack(mode, stamp, w, rows, i, w0, h0);
            && back.Image? && |back.data| == 3 * (w * |rows|) && 0 <= y * w + x < w * |rows|
            && Returns(mode, rows[y][x], PixelAt(back.data, y * w + x))
  {
    hide ReadBack, ComesBack;
    RoundTrip(mode, stamp, w, rows, i, w0, h0);
    ImageByteAt(ProjectRows(mode, rows), w, x, y);
    ProjectReturns(mode, rows[y][x]);
  }

  // Which raw files are damaged by the whitespace that the reader skips, in numbers.
  lemma WhitespaceStart(mode: nat, w: nat, rows: seq<seq<Pixel>>)
    requires (mode == PPM_RAW || mode == PGM_RAW) && Rectangular(rows, w) && w > 0 && rows != []
    ensures var p := rows[0][0];
            SafeStart(mode, w, rows) <==>
            if mode == PPM_RAW then p.r != 32 && !(9 <= p.r < 14)
            else !(96 <= p.r + p.g + p.b < 99) && !(27 <= p.r + p.g + p.b < 42)
  {
    GreyIsMean(rows[0][0]);
  }
}
