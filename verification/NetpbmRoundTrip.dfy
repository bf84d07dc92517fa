/** Reading back what was written: exactly which image comes back, for all six modes. */
module NetpbmRoundTrip {
  import opened Text
  import opened NetpbmFormat
  import opened NetpbmReader
  import opened NetpbmBits

  // ----- what each mode keeps of a pixel

  // The plain bitmap reader takes the 1 that the writer prints for a dark pixel as white.
  function Project(mode: int, p: Pixel): Pixel
  {
    if mode == PPM_ASCII || mode == PPM_RAW then p
    else if mode == PGM_ASCII || mode == PGM_RAW then Pixel(Grey(p), Grey(p), Grey(p))
    else if mode == PBM_RAW then Threshold(p)
    else Complement(Threshold(p))
  }

  function Complement(p: Pixel): Pixel
  {
    Pixel(255 - p.r, 255 - p.g, 255 - p.b)
  }

  function ProjectRow(mode: int, row: seq<Pixel>): (r: seq<Pixel>)
    ensures |r| == |row|
    ensures forall x :: 0 <= x < |row| ==> r[x] == Project(mode, row[x])
  {
    if row == [] then [] else [Project(mode, row[0])] + ProjectRow(mode, row[1..])
  }

  function ProjectRows(mode: int, rows: seq<seq<Pixel>>): (r: seq<seq<Pixel>>)
    ensures |r| == |rows|
    ensures forall y :: 0 <= y < |rows| ==> r[y] == ProjectRow(mode, rows[y])
  {
    if rows == [] then [] else [ProjectRow(mode, rows[0])] + ProjectRows(mode, rows[1..])
  }

  // ----- the five modes without bit packing: one piece of text or bytes per pixel

  predicate IsText(mode: int)
  {
    1 <= mode <= 3
  }

  // What follows the last number of a pixel when the counter was `i`.
  function Separator(mode: int, i: int): seq<byte>
  {
    if Rem(i + 1, if mode == PPM_ASCII then 5 else 15) == 0 then [SPACE, NEWLINE] else [SPACE]
  }

  function Piece(mode: int, i: int, p: Pixel): seq<byte>
  {
    if mode == PPM_RAW then [p.r, p.g, p.b]
    else if mode == PGM_RAW then [Grey(p)]
    else if mode == PPM_ASCII then
      PrintNat(p.r) + ([SPACE] + PrintNat(p.g) + ([SPACE] + PrintNat(p.b) + Separator(mode, i)))
    else PrintNat(if mode == PGM_ASCII then Grey(p) else DarkBit(p)) + Separator(mode, i)
  }

  function Next(mode: int, i: int): int
  {
    if IsText(mode) then i + 1 else i
  }

  function RowText(mode: int, i: int, row: seq<Pixel>): seq<byte>
    decreases |row|
  {
    if row == [] then [] else Piece(mode, i, row[0]) + RowText(mode, Next(mode, i), row[1..])
  }

  function AfterText(mode: int, i: int, n: nat): int
  {
    if IsText(mode) then i + n else i
  }

  function RowsText(mode: int, i: int, rows: seq<seq<Pixel>>): seq<byte>
    decreases |rows|
  {
    if rows == [] then []
    else RowText(mode, i, rows[0]) + RowsText(mode, AfterText(mode, i, |rows[0]|), rows[1..])
  }

  lemma PutPiece(mode: int, st: Writer, p: Pixel, endOfRow: bool)
    requires IsValidMode(mode) && mode != PBM_RAW
    ensures Put(mode, st, p, endOfRow) == Writer(Next(mode, st.i), st.bw, st.out + Piece(mode, st.i, p))
  {
    if mode == PPM_ASCII {
      EndPiece(st, PrintNat(p.r) + [SPACE] + PrintNat(p.g) + [SPACE] + PrintNat(p.b), 5);
      assert PrintNat(p.r) + [SPACE] + PrintNat(p.g) + [SPACE] + PrintNat(p.b) + Separator(mode, st.i)
          == Piece(mode, st.i, p);
    } else if IsText(mode) {
      EndPiece(st, PrintNat(if mode == PGM_ASCII then Grey(p) else DarkBit(p)), 15);
    }
  }

  lemma EndPiece(st: Writer, text: seq<byte>, every: nat)
    requires every > 0
    ensures EndItem(st, text + [SPACE], every) ==
            Writer(st.i + 1, st.bw, st.out + (text + if Rem(st.i + 1, every) == 0 then [SPACE, NEWLINE] else [SPACE]))
  {
  }

  lemma {:induction false} PutRowText(mode: int, st: Writer, row: seq<Pixel>)
    requires IsValidMode(mode) && mode != PBM_RAW
    ensures PutRow(mode, st, row) == Writer(AfterText(mode, st.i, |row|), st.bw, st.out + RowText(mode, st.i, row))
    decreases |row|
  {
    if row == [] {
      assert st.out + [] == st.out;
    } else {
      PutPiece(mode, st, row[0], |row| == 1);
      PutRowText(mode, Put(mode, st, row[0], |row| == 1), row[1..]);
    }
  }

  lemma {:induction false} PutRowsText(mode: int, st: Writer, rows: seq<seq<Pixel>>)
    requires IsValidMode(mode) && mode != PBM_RAW
    ensures PutRows(mode, st, rows).out == st.out + RowsText(mode, st.i, rows)
    decreases |rows|
  {
    if rows != [] {
      PutRowText(mode, st, rows[0]);
      PutRowsText(mode, PutRow(mode, st, rows[0]), rows[1..]);
    }
  }

  // Whitespace that may still be pending in front of the next pixel.
  predicate Pending(mode: int, ws: seq<byte>)
  {
    if IsText(mode) then AllSpace(ws) else ws == []
  }

  lemma ScanPiece(ws: seq<byte>, n: nat, more: seq<byte>)
    requires AllSpace(ws) && more != [] && IsSpace(more[0])
    ensures ScanInt(ws + (PrintNat(n) + more)) == Got(n, more)
  {
    assert ws + (PrintNat(n) + more) == ws + PrintNat(n) + more;
    ScanPrinted(ws, n, more);
  }

  lemma SkipOneSpace(n: nat, more: seq<byte>)
    ensures SkipSpace([SPACE] + PrintNat(n) + more) == PrintNat(n) + more
  {
    var s := [SPACE] + PrintNat(n) + more;
    assert s[1..] == PrintNat(n) + more;
    assert IsDigit((PrintNat(n) + more)[0]);
  }

  lemma GetTriple(st: Reader, i: int, p: Pixel, ws: seq<byte>, tail: seq<byte>)
    requires AllSpace(ws) && st.rest == ws + (Piece(PPM_ASCII, i, p) + tail)
    ensures ScanTriple(st) == Reader(Separator(PPM_ASCII, i) + tail, st.count, st.bw, p.r, p.g, p.b)
  {
    var sep := Separator(PPM_ASCII, i) + tail;
    var third := [SPACE] + PrintNat(p.b) + sep;
    var second := [SPACE] + PrintNat(p.g) + third;
    assert Piece(PPM_ASCII, i, p) + tail == PrintNat(p.r) + second;
    ScanPiece(ws, p.r, second);
    SkipOneSpace(p.g, third);
    ScanPiece([], p.g, third);
    assert [] + (PrintNat(p.g) + third) == PrintNat(p.g) + third;
    SkipOneSpace(p.b, sep);
    ScanPiece([], p.b, sep);
    assert [] + (PrintNat(p.b) + sep) == PrintNat(p.b) + sep;
  }

  function LeftOver(mode: int, i: int): seq<byte>
  {
    if IsText(mode) then Separator(mode, i) else []
  }

  lemma GetPiece(mode: int, st: Reader, i: int, p: Pixel, endOfRow: bool, ws: seq<byte>, tail: seq<byte>)
    requires IsValidMode(mode) && mode != PBM_RAW
    requires Pending(mode, ws) && st.rest == ws + (Piece(mode, i, p) + tail)
    ensures var st' := Get(mode, st, endOfRow);
            && Stored3(st') == RowBytes([Project(mode, p)])
            && st'.rest == LeftOver(mode, i) + tail && Pending(mode, LeftOver(mode, i))
  {
    if mode == PPM_ASCII {
      GetTriple(st, i, p, ws, tail);
    } else if IsText(mode) {
      GetNumber(mode, st, i, p, endOfRow, ws, tail);
    } else {
      GetRawPiece(mode, st, i, p, endOfRow, tail);
    }
  }

  lemma GetNumber(mode: int, st: Reader, i: int, p: Pixel, endOfRow: bool, ws: seq<byte>, tail: seq<byte>)
    requires mode == PGM_ASCII || mode == PBM_ASCII
    requires AllSpace(ws) && st.rest == ws + (Piece(mode, i, p) + tail)
    ensures var st' := Get(mode, st, endOfRow);
            Stored3(st') == RowBytes([Project(mode, p)]) && st'.rest == Separator(mode, i) + tail
  {
    var n := if mode == PGM_ASCII then Grey(p) else DarkBit(p);
    var more := Separator(mode, i) + tail;
    assert Piece(mode, i, p) + tail == PrintNat(n) + more;
    ScanPiece(ws, n, more);
  }

  lemma GetRawPiece(mode: int, st: Reader, i: int, p: Pixel, endOfRow: bool, tail: seq<byte>)
    requires mode == PGM_RAW || mode == PPM_RAW
    requires st.rest == [] + (Piece(mode, i, p) + tail)
    ensures var st' := Get(mode, st, endOfRow);
            Stored3(st') == RowBytes([Project(mode, p)]) && st'.rest == [] + tail
  {
    if mode == PGM_RAW {
      assert st.rest[1..] == tail;
    } else {
      assert st.rest[1..][1..][1..] == tail;
    }
  }

  lemma {:induction false} GetRowText(mode: int, st: Reader, i: int, row: seq<Pixel>, ws: seq<byte>, tail: seq<byte>)
    returns (ws': seq<byte>)
    requires IsValidMode(mode) && mode != PBM_RAW
    requires Pending(mode, ws) && st.rest == ws + (RowText(mode, i, row) + tail)
    ensures GetRow(mode, st, |row|) == RowBytes(ProjectRow(mode, row))
    ensures Pending(mode, ws') && AfterRow(mode, st, |row|).rest == ws' + tail
    decreases |row|
  {
    if row == [] {
      assert [] + tail == tail;
      ws' := ws;
    } else {
      var more := RowText(mode, Next(mode, i), row[1..]) + tail;
      RowTextCons(mode, i, row, tail);
      GetPiece(mode, st, i, row[0], |row| == 1, ws, more);
      ws' := GetRowText(mode, Get(mode, st, |row| == 1), Next(mode, i), row[1..], LeftOver(mode, i), tail);
      ProjectCons(mode, row);
    }
  }

  lemma RowTextCons(mode: int, i: int, row: seq<Pixel>, tail: seq<byte>)
    requires row != []
    ensures RowText(mode, i, row) + tail == Piece(mode, i, row[0]) + (RowText(mode, Next(mode, i), row[1..]) + tail)
  {
  }

  lemma ProjectCons(mode: int, row: seq<Pixel>)
    requires row != []
    ensures RowBytes(ProjectRow(mode, row)) == RowBytes([Project(mode, row[0])]) + RowBytes(ProjectRow(mode, row[1..]))
  {
    assert ProjectRow(mode, row)[1..] == ProjectRow(mode, row[1..]);
  }

  lemma RowsTextCons(mode: int, i: int, rows: seq<seq<Pixel>>, tail: seq<byte>)
    requires rows != []
    ensures RowsText(mode, i, rows) + tail ==
            RowText(mode, i, rows[0]) + (RowsText(mode, AfterText(mode, i, |rows[0]|), rows[1..]) + tail)
  {
  }

  lemma ProjectRowsCons(mode: int, rows: seq<seq<Pixel>>)
    requires rows != []
    ensures ImageBytes(ProjectRows(mode, rows)) ==
            RowBytes(ProjectRow(mode, rows[0])) + ImageBytes(ProjectRows(mode, rows[1..]))
  {
    assert ProjectRows(mode, rows)[1..] == ProjectRows(mode, rows[1..]);
  }

  lemma {:induction false} GetRowsText(mode: int, st: Reader, i: int, rows: seq<seq<Pixel>>, w: nat, ws: seq<byte>,
                                       tail: seq<byte>)
    requires IsValidMode(mode) && mode != PBM_RAW
    requires forall y :: 0 <= y < |rows| ==> |rows[y]| == w
    requires Pending(mode, ws) && st.rest == ws + (RowsText(mode, i, rows) + tail)
    ensures GetRows(mode, st, w, |rows|) == ImageBytes(ProjectRows(mode, rows))
    decreases |rows|
  {
    if rows != [] {
      var i' := AfterText(mode, i, w);
      var more := RowsText(mode, i', rows[1..]) + tail;
      RowsTextCons(mode, i, rows, tail);
      var ws' := GetRowText(mode, st, i, rows[0], ws, more);
      GetRowsText(mode, AfterRow(mode, st, w), i', rows[1..], w, ws', tail);
      ProjectRowsCons(mode, rows);
    }
  }

  // ----- the bit-packed mode

  // The bits that go out for a row when the counter was `i`. A counter that is not a multiple of
  // 8 puts zeros in front of them.
  function Stream(i: int, bs: seq<bit>): (r: seq<bit>)
    ensures |r| == i % 8 + |bs|
    ensures forall k :: 0 <= k < |r| && r[k] == 1 ==> k >= i % 8 && bs[k - i % 8] == 1
  {
    Clear(Lost(i + |bs|), Zeros(i % 8) + bs)
  }

  function RowPacked(i: int, bs: seq<bit>): seq<byte>
  {
    if bs == [] then [] else PackBits(Stream(i, bs))
  }

  function RowsBits(i: int, rows: seq<seq<Pixel>>): seq<byte>
    decreases |rows|
  {
    if rows == [] then []
    else RowPacked(i, Bits(rows[0])) + RowsBits(CounterAfter(i, |rows[0]|), rows[1..])
  }

  lemma PutRowBits(st: Writer, row: seq<Pixel>)
    requires st.bw == 0
    ensures PutRow(PBM_RAW, st, row)
         == Writer(CounterAfter(st.i, |row|), 0, st.out + RowPacked(st.i, Bits(row)))
  {
    if row != [] {
      ValueOfZeros(st.i % 8);
      PutBitsRow(st, row, Zeros(st.i % 8));
    }
  }

  lemma {:induction false} PutRowsBits(st: Writer, rows: seq<seq<Pixel>>)
    requires st.bw == 0
    ensures PutRows(PBM_RAW, st, rows).out == st.out + RowsBits(st.i, rows)
    decreases |rows|
  {
    if rows != [] {
      PutRowBits(st, rows[0]);
      PutRowsBits(PutRow(PBM_RAW, st, rows[0]), rows[1..]);
    }
  }

  // Every row is padded by itself: height * ceil(width / 8) bytes, and only the first row can take
  // a byte more, if the counter does not start at a multiple of 8.
  lemma {:induction false} PackedSize(i: int, rows: seq<seq<Pixel>>, w: nat)
    requires w > 0 && rows != [] && forall y :: 0 <= y < |rows| ==> |rows[y]| == w
    ensures |RowsBits(i, rows)| == (i % 8 + w + 7) / 8 + (|rows| - 1) * ((w + 7) / 8)
    decreases |rows|
  {
    hide RowPacked, Bits, PackBits;
    var row := (w + 7) / 8;
    RowSize(i, rows[0]);
    if |rows| > 1 {
      assert CounterAfter(i, w) % 8 == 0;
      PackedSize(CounterAfter(i, w), rows[1..], w);
      Distribute(|rows| - 2, row);
    } else {
      assert rows[1..] == [] && 0 * row == 0;
    }
  }

  lemma RowSize(i: int, row: seq<Pixel>)
    requires row != []
    ensures |RowPacked(i, Bits(row))| == (i % 8 + |row| + 7) / 8
  {
    PackedLength(Stream(i, Bits(row)));
  }

  lemma Distribute(n: nat, k: nat)
    ensures (n + 1) * k == k + n * k
  {
  }

  // ----- which packed images come back

  predicate Light(row: seq<Pixel>)
  {
    forall x :: 0 <= x < |row| ==> DarkBit(row[x]) == 0
  }

  // With an aligned counter a row comes back unless it ends, in the middle of a byte, with the
  // counter still negative; then the pixels of that byte have to be light. With any other
  // counter the row comes back shifted, so all of it has to be light.
  predicate RowSafe(i: int, row: seq<Pixel>)
  {
    if i % 8 == 0 then i + |row| >= 0 || Light(row[|row| - |row| % 8..]) else Light(row)
  }

  // The shifted row takes one byte more than the reader expects.
  predicate ByteMore(i: int, w: nat)
  {
    (i % 8 + w + 7) / 8 > (w + 7) / 8
  }

  // A surplus byte shifts all rows that follow.
  predicate PackingSafe(i: int, rows: seq<seq<Pixel>>)
    decreases |rows|
  {
    rows == [] ||
    (RowSafe(i, rows[0]) &&
     if ByteMore(i, |rows[0]|) then forall y :: 1 <= y < |rows| ==> Light(rows[y])
     else PackingSafe(CounterAfter(i, |rows[0]|), rows[1..]))
  }

  lemma {:induction false} ThresholdIsProject(row: seq<Pixel>)
    ensures Inked(Bits(row)) == ProjectRow(PBM_RAW, row)
  {
    if row != [] {
      assert Bits(row)[1..] == Bits(row[1..]);
      ThresholdIsProject(row[1..]);
    }
  }

  lemma {:induction false} InkedInjective(a: seq<bit>, b: seq<bit>)
    requires |a| == |b|
    ensures RowBytes(Inked(a)) == RowBytes(Inked(b)) <==> a == b
  {
    if a != [] {
      InkedBytes(a);
      InkedBytes(b);
      InkedInjective(a[1..], b[1..]);
      SameThree(Ink(a[0]).r, RowBytes(Inked(a[1..])), Ink(b[0]).r, RowBytes(Inked(b[1..])));
      assert a == [a[0]] + a[1..] && b == [b[0]] + b[1..];
    }
  }

  lemma SameThree(u: byte, s: seq<byte>, v: byte, t: seq<byte>)
    ensures [u, u, u] + s == [v, v, v] + t <==> u == v && s == t
  {
    assert ([u, u, u] + s)[3..] == s && ([v, v, v] + t)[3..] == t;
    assert ([u, u, u] + s)[0] == u && ([v, v, v] + t)[0] == v;
  }

  // A row read from packed bits, whatever bits follow.
  lemma ReadStream(st: Reader, stream: seq<bit>, row: seq<Pixel>, tail: seq<byte>)
    requires st.count == 0 && st.rest == PackBits(stream) + tail && 0 < |row| <= |stream|
    ensures GetRow(PBM_RAW, st, |row|) == RowBytes(ProjectRow(PBM_RAW, row)) <==> stream[..|row|] == Bits(row)
    ensures var st' := AfterRow(PBM_RAW, st, |row|);
            st'.count == 0 && st'.rest == PackBits(Left(|row|, stream[|row|..])) + tail
  {
    hide PackBits, Left, RowBytes, Inked, GetRow, AfterRow, Bits, Unpacking;
    var w := |row|;
    assert stream == stream[..w] + stream[w..];
    RowStarts(st, stream, tail);
    GetBitsRow(st, [], stream[..w], stream[w..], tail);
    ThresholdIsProject(row);
    InkedInjective(stream[..w], Bits(row));
  }

  lemma RowStarts(st: Reader, bs: seq<bit>, more: seq<byte>)
    requires st.count == 0 && st.rest == PackBits(bs) + more
    ensures Unpacking(st, [], bs, more)
  {
  }

  // Bits that reappear at a later place must all be zero.
  lemma {:induction false} ShiftedBits(stream: seq<bit>, m: nat, bs: seq<bit>, x: nat)
    requires m > 0 && |stream| == m + |bs| && x < |bs| && stream[..|bs|] == bs
    requires forall k :: 0 <= k < |stream| && stream[k] == 1 ==> k >= m && bs[k - m] == 1
    ensures bs[x] == 0
    decreases x
  {
    assert stream[x] == stream[..|bs|][x];
    if bs[x] == 1 {
      ShiftedBits(stream, m, bs, x - m);
    }
  }

  lemma ShiftedRow(stream: seq<bit>, m: nat, row: seq<Pixel>)
    requires m > 0 && |stream| == m + |row|
    requires forall k :: 0 <= k < |stream| && stream[k] == 1 ==> k >= m && Bits(row)[k - m] == 1
    ensures stream[..|row|] == Bits(row) <==> Light(row)
    ensures Light(row) ==> stream == Zeros(|stream|)
  {
    var bs := Bits(row);
    if stream[..|row|] == bs {
      forall x | 0 <= x < |row| ensures DarkBit(row[x]) == 0 {
        ShiftedBits(stream, m, bs, x);
        assert bs[x] == DarkBit(row[x]);
      }
    }
  }

  lemma AlignedRow(i: int, row: seq<Pixel>)
    requires i % 8 == 0
    ensures Stream(i, Bits(row)) == Bits(row) <==> RowSafe(i, row)
  {
    hide Light;
    var bs, n := Bits(row), |row| - |row| % 8;
    assert Zeros(0) + bs == bs;
    if Lost(i + |row|) {
      ClearTail(row, n);
      ClearNothing(bs);
    } else if i + |row| < 0 {
      LightEmpty(row, n);
    }
  }

  lemma ClearNothing(bs: seq<bit>)
    ensures Clear(true, bs) == bs <==> forall k :: |bs| - |bs| % 8 <= k < |bs| ==> bs[k] == 0
  {
  }

  lemma LightEmpty(row: seq<Pixel>, n: nat)
    requires n == |row|
    ensures Light(row[n..])
  {
  }

  lemma ClearTail(row: seq<Pixel>, n: nat)
    requires n <= |row|
    ensures Light(row[n..]) <==> forall k :: n <= k < |row| ==> Bits(row)[k] == 0
  {
    assert forall k :: n <= k < |row| ==> Bits(row)[k] == DarkBit(row[n..][k - n]);
    assert forall x :: 0 <= x < |row| - n ==> DarkBit(row[n..][x]) == Bits(row)[n + x];
  }

  lemma RowMatches(i: int, row: seq<Pixel>)
    ensures Stream(i, Bits(row))[..|row|] == Bits(row) <==> RowSafe(i, row)
  {
    if i % 8 == 0 {
      AlignedRow(i, row);
      assert Stream(i, Bits(row))[..|row|] == Stream(i, Bits(row));
    } else {
      ShiftedRow(Stream(i, Bits(row)), i % 8, row);
    }
  }

  lemma SameStart(a: seq<byte>, s: seq<byte>, b: seq<byte>, t: seq<byte>)
    requires |a| == |b|
    ensures a + s == b + t <==> a == b && s == t
  {
    assert (a + s)[..|a|] == a && (b + t)[..|a|] == b;
    assert (a + s)[|a|..] == s && (b + t)[|a|..] == t;
  }

  lemma LeftZeros(w: nat, m: nat)
    requires m <= 8
    ensures PackBits(Left(w, Zeros(m))) == if (m + w + 7) / 8 > (w + 7) / 8 then [0] else []
  {
    var k := |Left(w, Zeros(m))|;
    assert Left(w, Zeros(m)) == Zeros(k);
    if k > 0 {
      ByteOfZeros(k);
      assert PackBits([]) == [];
      assert Chunk8(Zeros(k)) == Zeros(k);
    }
  }

  // All rows come back if and only if the first one does and the others do.
  lemma FirstRow(st: Reader, rows: seq<seq<Pixel>>, w: nat)
    requires rows != [] && |rows[0]| == w
    ensures GetRows(PBM_RAW, st, w, |rows|) == ImageBytes(ProjectRows(PBM_RAW, rows)) <==>
            GetRow(PBM_RAW, st, w) == RowBytes(ProjectRow(PBM_RAW, rows[0])) &&
            GetRows(PBM_RAW, AfterRow(PBM_RAW, st, w), w, |rows[1..]|) == ImageBytes(ProjectRows(PBM_RAW, rows[1..]))
  {
    ProjectRowsCons(PBM_RAW, rows);
    SameStart(GetRow(PBM_RAW, st, w), GetRows(PBM_RAW, AfterRow(PBM_RAW, st, w), w, |rows| - 1),
              RowBytes(ProjectRow(PBM_RAW, rows[0])), ImageBytes(ProjectRows(PBM_RAW, rows[1..])));
  }

  // After a surplus zero byte only light rows come back, and they leave a zero byte again.
  lemma ShiftedFirst(st: Reader, row: seq<Pixel>, more: seq<byte>)
    requires row != [] && st.count == 0 && st.rest == [0] + (PackBits(Bits(row)) + more)
    ensures GetRow(PBM_RAW, st, |row|) == RowBytes(ProjectRow(PBM_RAW, row)) <==> Light(row)
    ensures var st' := AfterRow(PBM_RAW, st, |row|);
            st'.count == 0 && (Light(row) ==> st'.rest == [0] + more)
  {
    hide Left, RowBytes, GetRow, AfterRow, PackBits, Light, Bits;
    var stream := Zeros(8) + Bits(row);
    ZeroInFront(Bits(row), more);
    ReadStream(st, stream, row, more);
    ByteShifted(row);
    LeftZeros(|row|, 8);
  }

  lemma ByteShifted(row: seq<Pixel>)
    ensures var stream := Zeros(8) + Bits(row);
            && (stream[..|row|] == Bits(row) <==> Light(row))
            && (Light(row) ==> stream[|row|..] == Zeros(8))
  {
    var stream := Zeros(8) + Bits(row);
    ShiftedRow(stream, 8, row);
    assert Light(row) ==> stream[|row|..] == Zeros(8);
  }

  lemma ZeroInFront(bs: seq<bit>, more: seq<byte>)
    ensures [0] + (PackBits(bs) + more) == PackBits(Zeros(8) + bs) + more
  {
    var all := Zeros(8) + bs;
    assert Chunk8(all) == Zeros(8) && After8(all) == bs;
    ByteOfZeros(8);
    assert PackBits(all) == [0] + PackBits(bs);
  }

  lemma {:induction false} GetRowsShifted(st: Reader, i: int, rows: seq<seq<Pixel>>, w: nat, tail: seq<byte>)
    requires w > 0 && forall y :: 0 <= y < |rows| ==> |rows[y]| == w
    requires i >= 0 && i % 8 == 0 && st.count == 0 && st.rest == [0] + (RowsBits(i, rows) + tail)
    ensures GetRows(PBM_RAW, st, w, |rows|) == ImageBytes(ProjectRows(PBM_RAW, rows))
       <==> forall y :: 0 <= y < |rows| ==> Light(rows[y])
    decreases |rows|
  {
    hide PackBits, Light, RowBytes, GetRow, AfterRow, ProjectRow, ProjectRows;
    if rows != [] {
      var i' := CounterAfter(i, w);
      RowsBitsCons(i, rows, tail);
      PlainStream(i, Bits(rows[0]));
      ShiftedFirst(st, rows[0], RowsBits(i', rows[1..]) + tail);
      FirstRow(st, rows, w);
      if Light(rows[0]) {
        GetRowsShifted(AfterRow(PBM_RAW, st, w), i', rows[1..], w, tail);
      }
      assert (forall y :: 0 <= y < |rows| ==> Light(rows[y])) <==>
             Light(rows[0]) && forall y :: 0 <= y < |rows| - 1 ==> Light(rows[1..][y]) by {
        assert forall y :: 1 <= y < |rows| ==> rows[y] == rows[1..][y - 1];
      }
    }
  }

  lemma PlainStream(i: int, bs: seq<bit>)
    requires i >= 0 && i % 8 == 0
    ensures Stream(i, bs) == bs
  {
    assert Zeros(0) + bs == bs;
  }

  lemma RowsBitsCons(i: int, rows: seq<seq<Pixel>>, tail: seq<byte>)
    requires rows != [] && rows[0] != []
    ensures RowsBits(i, rows) + tail ==
            PackBits(Stream(i, Bits(rows[0]))) + (RowsBits(CounterAfter(i, |rows[0]|), rows[1..]) + tail)
  {
  }

  // A row that comes back leaves nothing of its bytes, or one zero byte.
  lemma FirstPacked(st: Reader, i: int, row: seq<Pixel>, more: seq<byte>)
    requires row != [] && st.count == 0 && st.rest == PackBits(Stream(i, Bits(row))) + more
    ensures GetRow(PBM_RAW, st, |row|) == RowBytes(ProjectRow(PBM_RAW, row)) <==> RowSafe(i, row)
    ensures var st' := AfterRow(PBM_RAW, st, |row|);
            && st'.count == 0
            && (RowSafe(i, row) ==> st'.rest == if ByteMore(i, |row|) then [0] + more else more)
  {
    hide Left, RowBytes, GetRow, AfterRow, PackBits, RowSafe, Stream, Bits;
    ReadStream(st, Stream(i, Bits(row)), row, more);
    RowMatches(i, row);
    if RowSafe(i, row) {
      Surplus(i, row);
      assert [] + more == more;
    }
  }

  lemma Surplus(i: int, row: seq<Pixel>)
    requires row != [] && RowSafe(i, row)
    ensures PackBits(Left(|row|, Stream(i, Bits(row))[|row|..])) == if ByteMore(i, |row|) then [0] else []
  {
    hide Left, PackBits;
    var m, stream := i % 8, Stream(i, Bits(row));
    if m > 0 {
      ShiftedRow(stream, m, row);
    }
    assert stream[|row|..] == Zeros(m);
    LeftZeros(|row|, m);
  }

  lemma {:induction false} GetRowsBits(st: Reader, i: int, rows: seq<seq<Pixel>>, w: nat, tail: seq<byte>)
    requires w > 0 && forall y :: 0 <= y < |rows| ==> |rows[y]| == w
    requires st.count == 0 && st.rest == RowsBits(i, rows) + tail
    ensures GetRows(PBM_RAW, st, w, |rows|) == ImageBytes(ProjectRows(PBM_RAW, rows)) <==> PackingSafe(i, rows)
    decreases |rows|
  {
    hide PackBits, Light, RowSafe, RowBytes, GetRow, AfterRow, ProjectRow, ProjectRows, Stream;
    if rows != [] {
      var i' := CounterAfter(i, w);
      var st' := AfterRow(PBM_RAW, st, w);
      RowsBitsCons(i, rows, tail);
      FirstPacked(st, i, rows[0], RowsBits(i', rows[1..]) + tail);
      FirstRow(st, rows, w);
      if !RowSafe(i, rows[0]) {
      } else if ByteMore(i, w) {
        CounterReset(i, w);
        GetRowsShifted(st', i', rows[1..], w, tail);
        assert forall y :: 0 <= y < |rows| - 1 ==> rows[1..][y] == rows[y + 1];
        assert forall y :: 1 <= y < |rows| ==> rows[y] == rows[1..][y - 1];
      } else {
        GetRowsBits(st', i', rows[1..], w, tail);
      }
    }
  }

  lemma CounterReset(i: int, w: nat)
    requires w > 0 && ByteMore(i, w)
    ensures CounterAfter(i, w) == 0
  {
  }

  // ----- for every image of a size

  lemma {:induction false} AlwaysSafe(i: int, rows: seq<seq<Pixel>>, w: nat)
    requires w > 0 && forall y :: 0 <= y < |rows| ==> |rows[y]| == w
    requires i % 8 == 0 && (w % 8 == 0 || i + w > 0)
    ensures PackingSafe(i, rows)
    decreases |rows|
  {
    if rows != [] {
      AlwaysSafe(CounterAfter(i, w), rows[1..], w);
    }
  }

  function Black(w: nat): (row: seq<Pixel>)
    ensures |row| == w
  {
    seq(w, _ => Pixel(0, 0, 0))
  }

  // Otherwise the image that is black all over does not come back.
  lemma BlackFails(i: int, rows: seq<seq<Pixel>>, w: nat)
    requires w > 0 && rows != [] && rows[0] == Black(w)
    requires i % 8 != 0 || (w % 8 != 0 && i + w <= 0)
    ensures !PackingSafe(i, rows)
  {
    assert DarkBit(rows[0][0]) == 1;
    if i % 8 == 0 {
      assert DarkBit(rows[0][w - w % 8..][0]) == 1;
    }
  }

  // ----- the pixel data of either kind

  function Data(mode: int, i: int, rows: seq<seq<Pixel>>): seq<byte>
  {
    if mode == PBM_RAW then RowsBits(i, rows) else RowsText(mode, i, rows)
  }

  lemma PutData(mode: int, st: Writer, rows: seq<seq<Pixel>>)
    requires IsValidMode(mode) && (mode == PBM_RAW ==> st.bw == 0)
    ensures PutRows(mode, st, rows).out == st.out + Data(mode, st.i, rows)
  {
    if mode == PBM_RAW {
      PutRowsBits(st, rows);
    } else {
      PutRowsText(mode, st, rows);
    }
  }

  lemma GetData(mode: int, i: int, rows: seq<seq<Pixel>>, w: nat, tail: seq<byte>)
    requires IsValidMode(mode) && w > 0 && forall y :: 0 <= y < |rows| ==> |rows[y]| == w
    ensures var data := GetRows(mode, Reader(Data(mode, i, rows) + tail, 0, 0, 0, 0, 0), w, |rows|);
            data == ImageBytes(ProjectRows(mode, rows)) <==> (mode == PBM_RAW ==> PackingSafe(i, rows))
  {
    var st := Reader(Data(mode, i, rows) + tail, 0, 0, 0, 0, 0);
    if mode == PBM_RAW {
      GetRowsBits(st, i, rows, w, tail);
    } else {
      assert st.rest == [] + (RowsText(mode, i, rows) + tail);
      GetRowsText(mode, st, i, rows, w, [], tail);
    }
  }
}
