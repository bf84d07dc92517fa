/** Whole files: header, pixel data and the final newline, written and read back. */
module NetpbmFiles {
  import opened Text
  import opened NetpbmFormat
  import opened NetpbmReader
  import opened NetpbmBits
  import opened NetpbmRoundTrip

  const INT_LIMIT := 0x8000_0000

  // The time stamp: no newline, and short enough for the comment to be one line of the reader.
  predicate StampOk(stamp: seq<byte>)
  {
    NoNewline(stamp) && |stamp| < LINE_MAX - |COMMENT|
  }

  // ----- the header

  lemma CommentText()
    ensures |COMMENT| == 47 && COMMENT[0] == '#' && NoEnd(COMMENT)
  {
    assert NoEnd("# File created ") && NoEnd("by Chris Wyman's ") && NoEnd("PPM Library on ");
  }

  lemma CommentLine(stamp: seq<byte>)
    requires StampOk(stamp)
    ensures var line := Ascii(COMMENT) + stamp; NoNewline(line) && |line| < LINE_MAX && line[0] == 35
  {
    CommentText();
    AsciiLine(COMMENT);
  }

  lemma AsciiLine(s: string)
    requires NoEnd(s)
    ensures NoNewline(Ascii(s)) && (s != [] && s[0] == '#' ==> Ascii(s)[0] == 35)
  {
  }

  // Plain characters, none of them a newline.
  predicate NoEnd(s: string)
  {
    forall k :: 0 <= k < |s| ==> s[k] != '\n' && s[k] as int < 128
  }

  lemma SizeLine(w: int, h: nat)
    requires -INT_LIMIT <= w < INT_LIMIT && h < INT_LIMIT
    ensures var line := PrintInt(w) + [SPACE] + PrintNat(h);
            NoNewline(line) && |line| < LINE_MAX && line[0] != 35
  {
    assert Pow10(10) == 10_000_000_000 by {
      assert Pow10(5) == 100_000;
      assert Pow10(10) == 100_000 * Pow10(5);
    }
    PrintLength(if w < 0 then -w else w, 10);
    PrintLength(h, 10);
  }

  lemma ScanSizes(w: int, h: nat)
    ensures var line := PrintInt(w) + [SPACE] + PrintNat(h) + [NEWLINE];
            var second := [SPACE] + PrintNat(h) + [NEWLINE];
            ScanInt(line) == Got(w, second) && ScanInt(SkipSpace(second)) == Got(h, [NEWLINE])
  {
    var second := [SPACE] + PrintNat(h) + [NEWLINE];
    assert PrintInt(w) + [SPACE] + PrintNat(h) + [NEWLINE] == PrintInt(w) + second;
    ScanPrintedInt(w, second);
    SkipOneSpace(h, [NEWLINE]);
    ScanPiece([], h, [NEWLINE]);
    assert [] + (PrintNat(h) + [NEWLINE]) == PrintNat(h) + [NEWLINE];
  }

  function ModeLine(mode: nat): seq<byte>
  {
    [80] + PrintNat(mode)
  }

  function AfterSizes(mode: nat, body: seq<byte>): seq<byte>
  {
    if IsBitmap(mode) then body else PrintNat(255) + ([NEWLINE] + body)
  }

  function AfterMode(mode: nat, stamp: seq<byte>, w: int, h: nat, body: seq<byte>): seq<byte>
  {
    Ascii(COMMENT) + stamp + [NEWLINE] + (PrintInt(w) + [SPACE] + PrintNat(h) + [NEWLINE] + AfterSizes(mode, body))
  }

  lemma HeaderLines(mode: nat, stamp: seq<byte>, w: int, h: nat, body: seq<byte>)
    ensures Header(mode, stamp, w, h) + body == ModeLine(mode) + [NEWLINE] + AfterMode(mode, stamp, w, h, body)
  {
    var max := if IsBitmap(mode) then [] else PrintNat(255) + [NEWLINE];
    assert max + body == AfterSizes(mode, body);
    var sizes := PrintInt(w) + [SPACE] + PrintNat(h) + [NEWLINE];
    var note := Ascii(COMMENT) + stamp + [NEWLINE];
    assert (note + (sizes + max)) + body == note + (sizes + (max + body));
  }

  // After the mode line: the comment is skipped, the sizes and the maximum are read back.
  lemma ReadLines(mode: nat, stamp: seq<byte>, w: int, h: nat, body: seq<byte>, first: seq<byte>)
    requires StampOk(stamp) && -INT_LIMIT <= w < INT_LIMIT && h < INT_LIMIT
    ensures var (second, rest) := Fgets(AfterMode(mode, stamp, w, h, body), first);
            SkipComments(second, rest) ==
            Line(PrintInt(w) + [SPACE] + PrintNat(h) + [NEWLINE], AfterSizes(mode, body))
  {
    CommentLine(stamp);
    SizeLine(w, h);
    var note := Ascii(COMMENT) + stamp;
    var sizes := PrintInt(w) + [SPACE] + PrintNat(h);
    var rest := sizes + [NEWLINE] + AfterSizes(mode, body);
    FgetsLine(note, rest, first);
    FgetsLine(sizes, AfterSizes(mode, body), note + [NEWLINE]);
    assert (note + [NEWLINE])[0] == 35 && (sizes + [NEWLINE])[0] == sizes[0];
  }

  lemma ReadModeLine(mode: nat, rest: seq<byte>)
    requires mode < 10
    ensures var line := ModeLine(mode) + [NEWLINE];
            Fgets(line + rest, []) == (line, rest) && CharAt(line, 0) == 80 && CharAt(line, 1) - 48 == mode
  {
    assert PrintNat(mode) == [48 + mode];
    FgetsLine(ModeLine(mode), rest, []);
  }

  lemma ReadHeaderBack(mode: nat, stamp: seq<byte>, w: int, h: nat, body: seq<byte>, w0: int, h0: int)
    requires IsValidMode(mode) && StampOk(stamp) && -INT_LIMIT <= w < INT_LIMIT && h < INT_LIMIT
    ensures ReadHead(Header(mode, stamp, w, h) + body, w0, h0)
         == Head(mode, w, h, if IsBitmap(mode) then body else SkipSpace([NEWLINE] + body))
  {
    HeaderLines(mode, stamp, w, h, body);
    ReadLinesBack(mode, stamp, w, h, body, w0, h0);
  }

  lemma ReadLinesBack(mode: nat, stamp: seq<byte>, w: int, h: nat, body: seq<byte>, w0: int, h0: int)
    requires IsValidMode(mode) && StampOk(stamp) && -INT_LIMIT <= w < INT_LIMIT && h < INT_LIMIT
    ensures ReadHead(ModeLine(mode) + [NEWLINE] + AfterMode(mode, stamp, w, h, body), w0, h0)
         == Head(mode, w, h, if IsBitmap(mode) then body else SkipSpace([NEWLINE] + body))
  {
    var rest := AfterMode(mode, stamp, w, h, body);
    var line := ModeLine(mode) + [NEWLINE];
    ReadModeLine(mode, rest);
    ReadLines(mode, stamp, w, h, body, line);
    ReadSizes(mode, w, h, body, w0, h0);
  }

  lemma ReadSizes(mode: nat, w: int, h: nat, body: seq<byte>, w0: int, h0: int)
    ensures SizesAndMaximum(mode, PrintInt(w) + [SPACE] + PrintNat(h) + [NEWLINE], AfterSizes(mode, body), w0, h0)
         == Head(mode, w, h, if IsBitmap(mode) then body else SkipSpace([NEWLINE] + body))
  {
    ScanSizes(w, h);
    ScanMaximum(mode, body);
  }

  lemma ScanMaximum(mode: nat, body: seq<byte>)
    ensures !IsBitmap(mode) ==> ScanInt(AfterSizes(mode, body)) == Got(255, [NEWLINE] + body)
  {
    ScanPiece([], 255, [NEWLINE] + body);
    assert [] + (PrintNat(255) + ([NEWLINE] + body)) == PrintNat(255) + ([NEWLINE] + body);
  }

  // A file written with a one-digit mode that is none of the six is rejected.
  lemma OtherModesRejected(mode: nat, stamp: seq<byte>, w: int, height: int, ptr: seq<byte>, i: int, w0: int, h0: int)
    requires |ptr| == 3 * (Rounds(w) * Abs(height)) && mode < 10 && !IsValidMode(mode)
    ensures ReadFile(WriteFile(mode, stamp, w, height, ptr, i).file, w0, h0) == Fatal
  {
    var rows := WrittenRows(ptr, Rounds(w), height);
    var st := Writer(i, 0, Header(mode, stamp, w, |rows|));
    PutNothing(mode, st, rows);
    HeaderLines(mode, stamp, w, |rows|, [NEWLINE]);
    ReadModeLine(mode, AfterMode(mode, stamp, w, |rows|, [NEWLINE]));
  }

  lemma {:induction false} PutNothingRow(mode: int, st: Writer, row: seq<Pixel>)
    requires !IsValidMode(mode)
    ensures PutRow(mode, st, row) == st
    decreases |row|
  {
    if row != [] {
      PutNothingRow(mode, st, row[1..]);
    }
  }

  lemma {:induction false} PutNothing(mode: int, st: Writer, rows: seq<seq<Pixel>>)
    requires !IsValidMode(mode)
    ensures PutRows(mode, st, rows) == st
    decreases |rows|
  {
    if rows != [] {
      PutNothingRow(mode, st, rows[0]);
      PutNothing(mode, st, rows[1..]);
    }
  }

  // A negative width is written as it is. The reader then computes a negative size and gives up,
  // unless there are no rows.
  lemma NegativeWidth(mode: nat, stamp: seq<byte>, w: int, height: int, i: int, w0: int, h0: int)
    requires IsValidMode(mode) && StampOk(stamp) && -INT_LIMIT <= w < 0 && Abs(height) < INT_LIMIT
    ensures Rounds(w) * Abs(height) == 0
    ensures ReadFile(WriteFile(mode, stamp, w, height, [], i).file, w0, h0)
         == if height == 0 then Image(mode, w, 0, []) else Fatal
  {
    hide ReadFile, ReadHead, Header;
    var h := Abs(height);
    var rows := WrittenRows([], 0, height);
    var st := Writer(i, 0, Header(mode, stamp, w, h));
    PutEmpty(mode, st, rows);
    assert FileOf(mode, stamp, w, rows, i) == Header(mode, stamp, w, h) + [NEWLINE];
    ReadHeaderBack(mode, stamp, w, h, [NEWLINE], w0, h0);
    NegativeSize(FileOf(mode, stamp, w, rows, i), w0, h0);
  }

  lemma NegativeSize(file: seq<byte>, w0: int, h0: int)
    requires var head := ReadHead(file, w0, h0); head.Head? && head.width < 0 <= head.height
    ensures var head := ReadHead(file, w0, h0);
            ReadFile(file, w0, h0) == if head.height == 0 then Image(head.mode, head.width, 0, []) else Fatal
  {
    hide ReadHead;
    var head := ReadHead(file, w0, h0);
    if head.height > 0 {
      assert head.height * head.width < 0;
    }
  }

  lemma {:induction false} PutEmpty(mode: int, st: Writer, rows: seq<seq<Pixel>>)
    requires forall y :: 0 <= y < |rows| ==> rows[y] == []
    ensures PutRows(mode, st, rows) == st
    decreases |rows|
  {
    if rows != [] {
      PutEmpty(mode, st, rows[1..]);
    }
  }

  // ----- the round trip

  // The reader takes whitespace at the start of raw grey or colour data for part of the header.
  predicate SafeStart(mode: int, w: nat, rows: seq<seq<Pixel>>)
    requires |rows| > 0 ==> |rows[0]| == w
  {
    (mode == PPM_RAW || mode == PGM_RAW) && w > 0 && |rows| > 0 ==>
      !IsSpace(if mode == PPM_RAW then rows[0][0].r else Grey(rows[0][0]))
  }

  function ReadBack(mode: nat, stamp: seq<byte>, w: nat, rows: seq<seq<Pixel>>, i: int, w0: int, h0: int): ReadResult
  {
    ReadFile(FileOf(mode, stamp, w, rows, i), w0, h0)
  }

  ghost predicate Rectangular(rows: seq<seq<Pixel>>, w: nat)
  {
    w < INT_LIMIT && |rows| < INT_LIMIT && forall y :: 0 <= y < |rows| ==> |rows[y]| == w
  }

  // The reader's view of the file: all of the header, then the data as it was written.
  lemma FileHead(mode: nat, stamp: seq<byte>, w: nat, rows: seq<seq<Pixel>>, i: int, w0: int, h0: int)
    requires IsValidMode(mode) && StampOk(stamp) && Rectangular(rows, w)
    ensures ReadHead(FileOf(mode, stamp, w, rows, i), w0, h0)
         == Head(mode, w, |rows|, if IsBitmap(mode) then Data(mode, i, rows) + [NEWLINE]
                                  else SkipSpace([NEWLINE] + (Data(mode, i, rows) + [NEWLINE])))
  {
    var header := Header(mode, stamp, w, |rows|);
    PutData(mode, Writer(i, 0, header), rows);
    assert FileOf(mode, stamp, w, rows, i) == header + (Data(mode, i, rows) + [NEWLINE]);
    ReadHeaderBack(mode, stamp, w, |rows|, Data(mode, i, rows) + [NEWLINE], w0, h0);
  }

  lemma {:induction false} NoPixels(rows: seq<seq<Pixel>>)
    requires forall y :: 0 <= y < |rows| ==> rows[y] == []
    ensures ImageBytes(rows) == []
  {
    if rows != [] {
      NoPixels(rows[1..]);
    }
  }

  // The first byte of the data; text always starts with a digit.
  lemma FirstByte(mode: int, i: int, rows: seq<seq<Pixel>>, w: nat)
    requires IsValidMode(mode) && mode != PBM_RAW && |rows| > 0 && |rows[0]| == w > 0
    ensures Data(mode, i, rows) != []
    ensures IsSpace(Data(mode, i, rows)[0]) <==> !SafeStart(mode, w, rows)
    ensures mode == PPM_RAW || mode == PGM_RAW ==>
              ImageBytes(ProjectRows(mode, rows)) != [] &&
              ImageBytes(ProjectRows(mode, rows))[0] == Data(mode, i, rows)[0]
  {
    var piece := Piece(mode, i, rows[0][0]);
    assert piece != [] && Data(mode, i, rows)[0] == RowText(mode, i, rows[0])[0] == piece[0];
    assert IsText(mode) ==> IsDigit(piece[0]);
    var p := ProjectRow(mode, rows[0])[0];
    assert ImageBytes(ProjectRows(mode, rows))[0] == RowBytes(ProjectRow(mode, rows[0]))[0] == p.r;
  }

  lemma {:induction false} SkippedHead(s: seq<byte>)
    ensures SkipSpace(s) == [] || !IsSpace(SkipSpace(s)[0])
  {
    if s != [] && IsSpace(s[0]) {
      SkippedHead(s[1..]);
    }
  }

  // Raw bytes are stored as they come; nothing stored for a missing byte looks like whitespace.
  lemma FirstStored(mode: int, rest: seq<byte>, w: nat, n: nat)
    requires (mode == PPM_RAW || mode == PGM_RAW) && w > 0 && n > 0
    requires rest == [] || !IsSpace(rest[0])
    ensures var data := GetRows(mode, Reader(rest, 0, 0, 0, 0, 0), w, n); data != [] && !IsSpace(data[0])
  {
    var st := Reader(rest, 0, 0, 0, 0, 0);
    assert GetRows(mode, st, w, n)[0] == GetRow(mode, st, w)[0] == Stored3(Get(mode, st, w == 1))[0];
  }

  // What the mode keeps of the image is read back, if and only if this holds.
  predicate ComesBack(mode: int, i: int, w: nat, rows: seq<seq<Pixel>>)
    requires |rows| > 0 ==> |rows[0]| == w
  {
    SafeStart(mode, w, rows) && (mode == PBM_RAW ==> PackingSafe(i, rows))
  }

  lemma {:induction false} EmptyRowsSafe(i: int, rows: seq<seq<Pixel>>)
    requires forall y :: 0 <= y < |rows| ==> rows[y] == []
    ensures PackingSafe(i, rows)
    decreases |rows|
  {
    if rows != [] {
      EmptyRowsSafe(CounterAfter(i, 0), rows[1..]);
    }
  }

  // For every mode, every image and every value of the counter.
  lemma RoundTrip(mode: nat, stamp: seq<byte>, w: nat, rows: seq<seq<Pixel>>, i: int, w0: int, h0: int)
    requires IsValidMode(mode) && StampOk(stamp) && Rectangular(rows, w)
    ensures ReadBack(mode, stamp, w, rows, i, w0, h0) == Image(mode, w, |rows|, ImageBytes(ProjectRows(mode, rows)))
       <==> ComesBack(mode, i, w, rows)
  {
    FileHead(mode, stamp, w, rows, i, w0, h0);
    ReadImage(FileOf(mode, stamp, w, rows, i), w0, h0, mode, w, |rows|);
    if w == 0 || rows == [] {
      NoPixels(ProjectRows(mode, rows));
      EmptyRowsSafe(i, rows);
    } else if IsBitmap(mode) {
      GetData(mode, i, rows, w, [NEWLINE]);
    } else {
      DataRoundTrip(mode, i, rows, w);
    }
  }

  // With a good header and sizes that are not negative the reader returns the pixels it scans.
  lemma ReadImage(file: seq<byte>, w0: int, h0: int, mode: int, w: nat, h: nat)
    requires var head := ReadHead(file, w0, h0); head.Head? && head.mode == mode && head.width == w && head.height == h
    ensures ReadFile(file, w0, h0) == Image(mode, w, h,
              if w == 0 || h == 0 then [] else GetRows(mode, Reader(ReadHead(file, w0, h0).rest, 0, 0, 0, 0, 0), w, h))
  {
    assert 3 * h * w >= 0;
    if w == 0 || h == 0 {
      assert 3 * h * w == 0;
    }
  }

  lemma DataRoundTrip(mode: int, i: int, rows: seq<seq<Pixel>>, w: nat)
    requires IsValidMode(mode) && !IsBitmap(mode) && Rectangular(rows, w) && w > 0 && rows != []
    ensures var rest := SkipSpace([NEWLINE] + (Data(mode, i, rows) + [NEWLINE]));
            GetRows(mode, Reader(rest, 0, 0, 0, 0, 0), w, |rows|) == ImageBytes(ProjectRows(mode, rows))
            <==> SafeStart(mode, w, rows)
  {
    var body := Data(mode, i, rows) + [NEWLINE];
    assert ([NEWLINE] + body)[1..] == body;
    FirstByte(mode, i, rows, w);
    if SafeStart(mode, w, rows) {
      assert SkipSpace([NEWLINE] + body) == body;
      GetData(mode, i, rows, w, [NEWLINE]);
    } else {
      SkippedHead([NEWLINE] + body);
      FirstStored(mode, SkipSpace([NEWLINE] + body), w, |rows|);
    }
  }

  // WritePPM then ReadPPM, on the caller's buffer and signed height.
  lemma FileRoundTrip(mode: nat, stamp: seq<byte>, w: nat, height: int, ptr: seq<byte>, i: int, w0: int, h0: int)
    requires |ptr| == 3 * (w * Abs(height)) && w < INT_LIMIT && Abs(height) < INT_LIMIT
    requires IsValidMode(mode) && StampOk(stamp)
    ensures var rows := WrittenRows(ptr, w, height);
            ComesBack(mode, i, w, rows) <==>
            ReadFile(WriteFile(mode, stamp, w, height, ptr, i).file, w0, h0)
            == Image(mode, w, Abs(height), ImageBytes(ProjectRows(mode, rows)))
  {
    RoundTrip(mode, stamp, w, WrittenRows(ptr, w, height), i, w0, h0);
  }

  // The packing loop never sets its counter before the first row. All packed images of a size come
  // back if and only if the counter starts at a multiple of 8 and is positive at the end of the
  // first row, unless the rows fill their bytes.
  lemma CounterForEveryImage(stamp: seq<byte>, w: nat, h: nat, i: int, w0: int, h0: int)
    requires StampOk(stamp) && 0 < w < INT_LIMIT && 0 < h < INT_LIMIT
    ensures (forall rows | Rectangular(rows, w) && |rows| == h ::
               ReadBack(PBM_RAW, stamp, w, rows, i, w0, h0)
               == Image(PBM_RAW, w, h, ImageBytes(ProjectRows(PBM_RAW, rows))))
       <==> i % 8 == 0 && (w % 8 == 0 || i + w > 0)
  {
    if i % 8 == 0 && (w % 8 == 0 || i + w > 0) {
      forall rows | Rectangular(rows, w) && |rows| == h
        ensures ReadBack(PBM_RAW, stamp, w, rows, i, w0, h0)
             == Image(PBM_RAW, w, h, ImageBytes(ProjectRows(PBM_RAW, rows)))
      {
        AlwaysSafe(i, rows, w);
        RoundTrip(PBM_RAW, stamp, w, rows, i, w0, h0);
      }
    } else {
      var rows := seq(h, _ => Black(w));
      BlackFails(i, rows, w);
      assert Rectangular(rows, w);
      RoundTrip(PBM_RAW, stamp, w, rows, i, w0, h0);
    }
  }

  // ----- image buffers and rows are the same thing

  lemma {:induction false} ImageSize(rows: seq<seq<Pixel>>, w: nat)
    requires forall y :: 0 <= y < |rows| ==> |rows[y]| == w
    ensures |ImageBytes(rows)| == 3 * (w * |rows|)
  {
    if rows != [] {
      ImageSize(rows[1..], w);
      Distribute(|rows| - 1, w);
    }
  }

  lemma {:induction false} RowByteAt(row: seq<Pixel>, x: nat)
    requires x < |row|
    ensures PixelAt(RowBytes(row), x) == row[x]
  {
    if x > 0 {
      RowByteAt(row[1..], x - 1);
    }
  }

  lemma {:induction false} ImageByteAt(rows: seq<seq<Pixel>>, w: nat, x: nat, y: nat)
    requires forall k :: 0 <= k < |rows| ==> |rows[k]| == w
    requires x < w && y < |rows|
    ensures |ImageBytes(rows)| == 3 * (w * |rows|) && 0 <= y * w + x < w * |rows|
    ensures PixelAt(ImageBytes(rows), y * w + x) == rows[y][x]
  {
    ImageSize(rows, w);
    IndexInside(x, y, w, |rows|);
    var s, rest := ImageBytes(rows), ImageBytes(rows[1..]);
    assert s == RowBytes(rows[0]) + rest;
    if y == 0 {
      RowByteAt(rows[0], x);
    } else {
      ImageByteAt(rows[1..], w, x, y - 1);
      assert y * w + x == w + ((y - 1) * w + x);
      Shifted(RowBytes(rows[0]), rest, w, (y - 1) * w + x);
    }
  }

  lemma Shifted(a: seq<byte>, b: seq<byte>, w: nat, k: nat)
    requires |a| == 3 * w && 3 * k + 2 < |b|
    ensures PixelAt(a + b, w + k) == PixelAt(b, k)
  {
  }

  lemma RowsOfImage(rows: seq<seq<Pixel>>, w: nat)
    requires forall y :: 0 <= y < |rows| ==> |rows[y]| == w
    ensures |ImageBytes(rows)| == 3 * (w * Abs(|rows|)) && WrittenRows(ImageBytes(rows), w, |rows|) == rows
  {
    ImageSize(rows, w);
    var ptr := ImageBytes(rows);
    forall y: nat | y < |rows| ensures RowAt(ptr, w, |rows|, y) == rows[y] {
      forall x: nat | x < w ensures RowAt(ptr, w, |rows|, y)[x] == rows[y][x] {
        ImageByteAt(rows, w, x, y);
      }
    }
  }

  // ----- negative heights

  // The buffer with its rows in opposite order.
  function Mirror(ptr: seq<byte>, w: nat, h: nat): (m: seq<byte>)
    requires |ptr| == 3 * (w * h)
  {
    ImageBytes(WrittenRows(ptr, w, -(h as int)))
  }

  lemma MirrorAt(ptr: seq<byte>, w: nat, h: nat, x: nat, y: nat)
    requires |ptr| == 3 * (w * h) && x < w && y < h
    ensures |Mirror(ptr, w, h)| == 3 * (w * h)
    ensures 0 <= y * w + x < w * h && 0 <= (h - 1 - y) * w + x < w * h
    ensures PixelAt(Mirror(ptr, w, h), y * w + x) == PixelAt(ptr, (h - 1 - y) * w + x)
  {
    var rows, y' := WrittenRows(ptr, w, -(h as int)), h - 1 - y;
    ImageByteAt(rows, w, x, y);
    IndexInside(x, y', w, h);
    assert rows[y] == RowAt(ptr, w, h, y');
    assert RowAt(ptr, w, h, y')[x] == PixelAt(ptr, y' * w + x);
  }

  // Writing with height -h is writing the mirrored image with height h, in every mode, header,
  // line breaks and padding included.
  lemma BottomUp(mode: int, stamp: seq<byte>, w: nat, h: nat, ptr: seq<byte>, i: int)
    requires |ptr| == 3 * (w * h) && h > 0
    ensures |Mirror(ptr, w, h)| == 3 * (w * h)
    ensures WriteFile(mode, stamp, w, -(h as int), ptr, i) == WriteFile(mode, stamp, w, h, Mirror(ptr, w, h), i)
  {
    RowsOfImage(WrittenRows(ptr, w, -(h as int)), w);
  }

  // ----- a second round trip

  lemma ProjectTwice(mode: int, rows: seq<seq<Pixel>>)
    requires IsValidMode(mode)
    ensures mode != PBM_ASCII ==> ProjectRows(mode, ProjectRows(mode, rows)) == ProjectRows(mode, rows)
    ensures mode == PBM_ASCII ==> ProjectRows(mode, ProjectRows(mode, rows)) == ProjectRows(PBM_RAW, rows)
  {
    var m := if mode == PBM_ASCII then PBM_RAW else mode;
    var once := ProjectRows(mode, rows);
    forall y | 0 <= y < |rows| ensures ProjectRow(mode, once[y]) == ProjectRow(m, rows[y]) {
      forall x | 0 <= x < |rows[y]| ensures ProjectRow(mode, once[y])[x] == ProjectRow(m, rows[y])[x] {
        PixelTwice(mode, rows[y][x]);
      }
    }
  }

  lemma PixelTwice(mode: int, p: Pixel)
    requires IsValidMode(mode)
    ensures Project(mode, Project(mode, p)) == Project(if mode == PBM_ASCII then PBM_RAW else mode, p)
  {
    if mode == PGM_ASCII || mode == PGM_RAW {
      GreyTwice(mode, p);
    } else if IsBitmap(mode) {
      BitmapTwice(mode, p);
    }
  }

  lemma GreyTwice(mode: int, p: Pixel)
    requires mode == PGM_ASCII || mode == PGM_RAW
    ensures Project(mode, Project(mode, p)) == Project(mode, p)
  {
    GreyOfGrey(Grey(p));
  }

  lemma BitmapTwice(mode: int, p: Pixel)
    requires IsBitmap(mode)
    ensures Project(mode, Project(mode, p)) == Project(PBM_RAW, p)
  {
    hide Threshold, Complement, Grey;
    if mode == PBM_RAW {
      ThresholdTwice(p);
    } else {
      ComplementTwice(p);
    }
  }

  lemma ThresholdTwice(p: Pixel)
    ensures Threshold(Threshold(p)) == Threshold(p)
  {
    hide Ink;
    InkBit(DarkBit(p));
  }

  lemma ComplementTwice(p: Pixel)
    ensures Complement(Threshold(Complement(Threshold(p)))) == Threshold(p)
  {
    hide Ink, Complement;
    var b: bit := DarkBit(p);
    ComplementInk(b);
    InkBit(1 - b);
    ComplementInk(1 - b);
  }

  lemma ComplementInk(b: bit)
    ensures Complement(Ink(b)) == Ink(1 - b)
  {
  }

  lemma InkBit(b: bit)
    ensures DarkBit(Ink(b)) == b
  {
    assert Grey(Pixel(0, 0, 0)) == 0 && Grey(Pixel(255, 255, 255)) == 255;
  }

  lemma GreyOfGrey(v: byte)
    ensures Grey(Pixel(v, v, v)) == v
  {
  }

  // Writing what was read and reading it again, with another time and another counter: nothing
  // changes any more, except in the plain bitmap mode, whose second trip undoes the complement of
  // the first. Packed bits need a good counter again.
  lemma SecondTrip(mode: nat, stamp: seq<byte>, w: nat, rows: seq<seq<Pixel>>, i: int,
                   stamp2: seq<byte>, i2: int, w0: int, h0: int)
    requires IsValidMode(mode) && StampOk(stamp) && StampOk(stamp2) && Rectangular(rows, w)
    requires ComesBack(mode, i, w, rows)
    ensures var first := ReadBack(mode, stamp, w, rows, i, w0, h0);
            && first.Image? && |first.data| == 3 * (w * Abs(|rows|))
            && var second := ReadFile(WriteFile(mode, stamp2, w, |rows|, first.data, i2).file, w0, h0);
               second == (if mode == PBM_ASCII then first.(data := ImageBytes(ProjectRows(PBM_RAW, rows))) else first)
               <==> (mode == PBM_RAW ==> PackingSafe(i2, rows))
  {
    RoundTrip(mode, stamp, w, rows, i, w0, h0);
    var once := ProjectRows(mode, rows);
    RowsOfImage(once, w);
    StartSafeAgain(mode, w, rows);
    if mode == PBM_RAW {
      PackingSafeAgain(i2, rows);
    }
    RoundTrip(mode, stamp2, w, once, i2, w0, h0);
    ProjectTwice(mode, rows);
  }

  lemma StartSafeAgain(mode: int, w: nat, rows: seq<seq<Pixel>>)
    requires |rows| > 0 ==> |rows[0]| == w
    requires SafeStart(mode, w, rows)
    ensures SafeStart(mode, w, ProjectRows(mode, rows))
  {
    if mode == PGM_RAW && w > 0 && |rows| > 0 {
      GreyOfGrey(Grey(rows[0][0]));
    }
  }

  lemma LightAgain(row: seq<Pixel>, n: nat)
    requires n <= |row|
    ensures Light(ProjectRow(PBM_RAW, row)[n..]) <==> Light(row[n..])
  {
    var once := ProjectRow(PBM_RAW, row);
    forall x | 0 <= x < |row| ensures Bits(once)[x] == Bits(row)[x] {
      InkBit(DarkBit(row[x]));
    }
    ClearTail(row, n);
    ClearTail(once, n);
  }

  lemma {:induction false} PackingSafeAgain(i: int, rows: seq<seq<Pixel>>)
    ensures PackingSafe(i, ProjectRows(PBM_RAW, rows)) <==> PackingSafe(i, rows)
    decreases |rows|
  {
    if rows != [] {
      var once := ProjectRows(PBM_RAW, rows);
      forall y | 0 <= y < |rows| ensures Light(once[y]) <==> Light(rows[y]) {
        LightAgain(rows[y], 0);
        assert once[y][0..] == once[y] && rows[y][0..] == rows[y];
      }
      LightAgain(rows[0], |rows[0]| - |rows[0]| % 8);
      PackingSafeAgain(CounterAfter(i, |rows[0]|), rows[1..]);
      assert once[1..] == ProjectRows(PBM_RAW, rows[1..]);
    }
  }

  predicate BlackAndWhite(rows: seq<seq<Pixel>>)
  {
    forall y :: 0 <= y < |rows| ==>
      forall x :: 0 <= x < |rows[y]| ==> rows[y][x] == Pixel(0, 0, 0) || rows[y][x] == Pixel(255, 255, 255)
  }

  lemma ProjectBlackAndWhite(rows: seq<seq<Pixel>>)
    requires BlackAndWhite(rows)
    ensures ProjectRows(PBM_RAW, rows) == rows
  {
    forall y | 0 <= y < |rows| ensures ProjectRow(PBM_RAW, rows[y]) == rows[y] {
      forall x | 0 <= x < |rows[y]| ensures Project(PBM_RAW, rows[y][x]) == rows[y][x] {
      }
    }
  }

  // One trip through a packed bitmap file keeps a black-and-white image, with a good counter; two
  // trips through a plain one restore it, with any counters.
  lemma BlackAndWhiteKept(stamp: seq<byte>, w: nat, rows: seq<seq<Pixel>>, i: int,
                          stamp2: seq<byte>, i2: int, w0: int, h0: int)
    requires StampOk(stamp) && StampOk(stamp2) && Rectangular(rows, w) && BlackAndWhite(rows)
    ensures ReadBack(PBM_RAW, stamp, w, rows, i, w0, h0) == Image(PBM_RAW, w, |rows|, ImageBytes(rows))
       <==> PackingSafe(i, rows)
    ensures var first := ReadBack(PBM_ASCII, stamp, w, rows, i, w0, h0);
            && first.Image? && |first.data| == 3 * (w * Abs(|rows|))
            && ReadFile(WriteFile(PBM_ASCII, stamp2, w, |rows|, first.data, i2).file, w0, h0)
               == Image(PBM_ASCII, w, |rows|, ImageBytes(rows))
  {
    ProjectBlackAndWhite(rows);
    RoundTrip(PBM_RAW, stamp, w, rows, i, w0, h0);
    RoundTrip(PBM_ASCII, stamp, w, rows, i, w0, h0);
    SecondTrip(PBM_ASCII, stamp, w, rows, i, stamp2, i2, w0, h0);
  }
}
