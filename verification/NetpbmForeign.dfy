/** What the reader makes of files that were not written by this writer. */
module NetpbmForeign {
  import opened Text
  import opened NetpbmFormat
  import opened NetpbmReader

  // ----- comment lines

  predicate IsComment(line: seq<byte>)
  {
    line != [] && line[0] == 35
  }

  // Lines that fit into the buffer, each with its newline.
  function Lines(lines: seq<seq<byte>>): seq<byte>
  {
    if lines == [] then [] else lines[0] + [NEWLINE] + Lines(lines[1..])
  }

  predicate ShortComments(lines: seq<seq<byte>>)
  {
    forall k :: 0 <= k < |lines| ==> IsComment(lines[k]) && NoNewline(lines[k]) && |lines[k]| < 255
  }

  lemma {:induction false} CommentLinesSkipped(lines: seq<seq<byte>>, rest: seq<byte>, old_line: seq<byte>)
    requires ShortComments(lines) && rest != []
    ensures var (line, more) := Fgets(Lines(lines) + rest, old_line);
            var (line2, more2) := Fgets(rest, old_line);
            SkipComments(line, more) == SkipComments(line2, more2)
  {
    if lines == [] {
      assert [] + rest == rest;
    } else {
      var more := Lines(lines[1..]) + rest;
      assert Lines(lines) + rest == lines[0] + [NEWLINE] + more;
      FgetsLine(lines[0], more, old_line);
      assert (lines[0] + [NEWLINE])[0] == 35;
      CommentLinesSkipped(lines[1..], rest, lines[0] + [NEWLINE]);
    }
  }

  // Any number of comment lines after the mode line make no difference.
  lemma CommentsSkipped(first: seq<byte>, comments: seq<seq<byte>>, rest: seq<byte>, w0: int, h0: int)
    requires NoNewline(first) && |first| < 255 && ShortComments(comments) && rest != []
    ensures ReadHead(first + [NEWLINE] + (Lines(comments) + rest), w0, h0) == ReadHead(first + [NEWLINE] + rest, w0, h0)
  {
    FgetsLine(first, Lines(comments) + rest, []);
    FgetsLine(first, rest, []);
    CommentLinesSkipped(comments, rest, first + [NEWLINE]);
  }

  // The file as fgets cuts it up: lines, and pieces of 255 bytes of longer lines.
  function Pieces(s: seq<byte>): seq<seq<byte>>
    decreases |s|
  {
    if s == [] then []
    else
      var k := LineLength(s, 255);
      [s[..k]] + Pieces(s[k..])
  }

  predicate AllComments(pieces: seq<seq<byte>>)
  {
    forall k :: 0 <= k < |pieces| ==> IsComment(pieces[k])
  }

  lemma AllCons(piece: seq<byte>, pieces: seq<seq<byte>>)
    ensures AllComments([piece] + pieces) <==> IsComment(piece) && AllComments(pieces)
  {
    var all := [piece] + pieces;
    assert forall k :: 0 <= k < |pieces| ==> pieces[k] == all[k + 1];
    assert all[0] == piece && forall k :: 1 <= k < |all| ==> all[k] == pieces[k - 1];
  }

  // One call of fgets before the end of the file.
  lemma NextPiece(s: seq<byte>, line: seq<byte>)
    requires s != []
    ensures var (next, more) := Fgets(s, line);
            && Pieces(s) == [next] + Pieces(more) && |more| < |s|
            && (IsComment(next) <==> CharAt(next, 0) == 35)
  {
  }

  lemma {:induction false} NeverEnds(line: seq<byte>, rest: seq<byte>)
    ensures SkipComments(line, rest).NoLine? <==> CharAt(line, 0) == 35 && AllComments(Pieces(rest))
    decreases |rest|
  {
    if CharAt(line, 0) == 35 && rest != [] {
      var (next, more) := Fgets(rest, line);
      NextPiece(rest, line);
      AllCons(next, Pieces(more));
      NeverEnds(next, more);
    }
  }

  // P or p, and a digit from 1 to 6.
  predicate GoodModeLine(line: seq<byte>)
  {
    |line| >= 2 && (line[0] == 80 || line[0] == 112) && 49 <= line[1] <= 54
  }

  // The reader never returns if and only if a good mode line is followed by nothing but comments,
  // at least one, up to the end of the file.
  lemma EndlessExactly(file: seq<byte>, w0: int, h0: int)
    ensures ReadFile(file, w0, h0) == Endless <==>
            var pieces := Pieces(file);
            |pieces| >= 2 && GoodModeLine(pieces[0]) && AllComments(pieces[1..])
  {
    HeadEndless(file, w0, h0);
    if file != [] {
      hide ReadFile, SkipComments, Fgets;
      NextPiece(file, []);
      var (first, rest) := Fgets(file, []);
      assert Pieces(file)[1..] == Pieces(rest);
      if rest != [] {
        NextPiece(rest, first);
        var (second, rest2) := Fgets(rest, first);
        AllCons(second, Pieces(rest2));
        NeverEnds(second, rest2);
      } else {
        NoSecondLine(first);
      }
    }
  }

  // At the end of the file the buffer keeps the first line.
  lemma NoSecondLine(first: seq<byte>)
    ensures Fgets([], first) == (first, []) && Pieces([]) == []
    ensures GoodModeLine(first) ==> !SkipComments(first, []).NoLine?
  {
  }

  lemma HeadEndless(file: seq<byte>, w0: int, h0: int)
    ensures var (first, rest) := Fgets(file, []);
            var (second, rest2) := Fgets(rest, first);
            ReadFile(file, w0, h0) == Endless <==> GoodModeLine(first) && SkipComments(second, rest2).NoLine?
  {
  }

  // ----- which headers are accepted

  lemma SizesRead(w: int, h: int, note: seq<byte>)
    requires note == [] || !IsDigit(note[0])
    ensures var line := PrintInt(w) + [SPACE] + PrintInt(h) + note;
            var second := [SPACE] + PrintInt(h) + note;
            ScanInt(line) == Got(w, second) && ScanInt(SkipSpace(second)) == Got(h, note)
  {
    hide ScanInt, SkipSpace, PrintInt;
    var second := [SPACE] + PrintInt(h) + note;
    assert PrintInt(w) + [SPACE] + PrintInt(h) + note == PrintInt(w) + second;
    ScanPrintedInt(w, second);
    SkipBeforeInt(h, note);
    ScanPrintedInt(h, note);
  }

  lemma SkipBeforeInt(n: int, more: seq<byte>)
    ensures SkipSpace([SPACE] + PrintInt(n) + more) == PrintInt(n) + more
  {
    assert [SPACE] + PrintInt(n) + more == [SPACE] + (PrintInt(n) + more);
    assert ([SPACE] + (PrintInt(n) + more))[1..] == PrintInt(n) + more;
    assert !IsSpace((PrintInt(n) + more)[0]);
  }

  lemma SizesAndMaximumRead(mode: int, w: int, h: int, note: seq<byte>, max: int, tail: seq<byte>, w0: int, h0: int)
    requires note == [] || !IsDigit(note[0])
    requires tail == [] || !IsDigit(tail[0])
    ensures SizesAndMaximum(mode, SizesLine(w, h, note) + [NEWLINE], PrintInt(max) + tail, w0, h0)
         == if mode == 1 || mode == 4 then Head(mode, w, h, PrintInt(max) + tail)
            else if max <= 0 || (4 <= mode <= 6 && max > 255) then BadHead(false)
            else Head(mode, w, h, SkipSpace(tail))
  {
    hide ScanInt, SkipSpace, PrintInt;
    assert SizesLine(w, h, note) + [NEWLINE] == PrintInt(w) + [SPACE] + PrintInt(h) + (note + [NEWLINE]);
    SizesRead(w, h, note + [NEWLINE]);
    ScanPrintedInt(max, tail);
  }

  lemma BitmapSizesRead(mode: int, w: int, h: int, note: seq<byte>, body: seq<byte>, w0: int, h0: int)
    requires (note == [] || !IsDigit(note[0])) && (mode == 1 || mode == 4)
    ensures SizesAndMaximum(mode, SizesLine(w, h, note) + [NEWLINE], body, w0, h0) == Head(mode, w, h, body)
  {
    hide ScanInt, SkipSpace, PrintInt;
    assert SizesLine(w, h, note) + [NEWLINE] == PrintInt(w) + [SPACE] + PrintInt(h) + (note + [NEWLINE]);
    SizesRead(w, h, note + [NEWLINE]);
  }

  // Width, height, and anything that does not continue the number.
  function SizesLine(w: int, h: int, note: seq<byte>): seq<byte>
  {
    PrintInt(w) + [SPACE] + PrintInt(h) + note
  }

  predicate GoodSizesLine(w: int, h: int, note: seq<byte>)
  {
    NoNewline(note) && (note == [] || !IsDigit(note[0])) && |SizesLine(w, h, note)| < 255
  }

  // The mode line, comments, the sizes, and what follows them.
  function FileWith(first: seq<byte>, comments: seq<seq<byte>>, w: int, h: int, note: seq<byte>, body: seq<byte>)
    : seq<byte>
  {
    first + [NEWLINE] + (Lines(comments) + (SizesLine(w, h, note) + [NEWLINE] + body))
  }

  lemma HeaderLines(first: seq<byte>, comments: seq<seq<byte>>, w: int, h: int, note: seq<byte>, body: seq<byte>,
                    w0: int, h0: int)
    requires NoNewline(first) && |first| < 255 && ShortComments(comments) && GoodSizesLine(w, h, note)
    ensures ReadHead(FileWith(first, comments, w, h, note, body), w0, h0)
         == if GoodModeLine(first) then
              SizesAndMaximum(first[1] - 48, SizesLine(w, h, note) + [NEWLINE], body, w0, h0)
            else BadHead(false)
  {
    hide Fgets, SizesAndMaximum;
    var sizes := SizesLine(w, h, note);
    CommentsSkipped(first, comments, sizes + [NEWLINE] + body, w0, h0);
    FgetsLine(first, sizes + [NEWLINE] + body, []);
    ModeOfLine(first);
    FgetsLine(sizes, body, first + [NEWLINE]);
    assert (sizes + [NEWLINE])[0] == PrintInt(w)[0] != 35;
  }

  lemma ModeOfLine(first: seq<byte>)
    ensures var line, mode := first + [NEWLINE], CharAt(first + [NEWLINE], 1) - 48;
            GoodModeLine(first) <==> IsValidMode(mode) && (CharAt(line, 0) == 80 || CharAt(line, 0) == 112)
    ensures GoodModeLine(first) ==> CharAt(first + [NEWLINE], 1) == first[1]
  {
  }

  // Whatever the first line, the comments, the sizes and the maximum are: the mode line has to be
  // good, a maximum has to be positive, and at most 255 for raw files; a bitmap has no maximum.
  lemma HeaderRead(first: seq<byte>, comments: seq<seq<byte>>, w: int, h: int, note: seq<byte>, body: seq<byte>,
                   max: int, tail: seq<byte>, w0: int, h0: int)
    requires NoNewline(first) && |first| < 255 && ShortComments(comments) && GoodSizesLine(w, h, note)
    ensures var head := ReadHead(FileWith(first, comments, w, h, note, body), w0, h0);
            if !GoodModeLine(first) then head == BadHead(false)
            else
              var mode := first[1] - 48;
              && (mode == 1 || mode == 4 ==> head == Head(mode, w, h, body))
              && (mode != 1 && mode != 4 && body == PrintInt(max) + tail && (tail == [] || !IsDigit(tail[0])) ==>
                    head == if max <= 0 || (mode >= 5 && max > 255) then BadHead(false)
                            else Head(mode, w, h, SkipSpace(tail)))
  {
    HeaderLines(first, comments, w, h, note, body, w0, h0);
    if GoodModeLine(first) {
      hide ReadHead, SizesAndMaximum;
      var mode := first[1] - 48;
      if mode == 1 || mode == 4 {
        BitmapSizesRead(mode, w, h, note, body, w0, h0);
      } else if body == PrintInt(max) + tail && (tail == [] || !IsDigit(tail[0])) {
        SizesAndMaximumRead(mode, w, h, note, max, tail, w0, h0);
      }
    }
  }

  // ----- plain files: numbers in any layout

  // A number and the whitespace after it.
  datatype Token = Token(n: int, space: seq<byte>)

  predicate Spaced(ts: seq<Token>)
  {
    forall k :: 0 <= k < |ts| ==> ts[k].space != [] && AllSpace(ts[k].space)
  }

  function TokensText(ts: seq<Token>): seq<byte>
  {
    if ts == [] then [] else PrintInt(ts[0].n) + (ts[0].space + TokensText(ts[1..]))
  }

  function PerPixel(mode: int): nat
  {
    if mode == PPM_ASCII then 3 else 1
  }

  // The bytes that are stored: in a bitmap 1 is white and everything else black; other numbers are
  // cut to a byte.
  function Shown(mode: int, ts: seq<Token>, n: nat): seq<byte>
    requires |ts| == PerPixel(mode) * n
  {
    if n == 0 then []
    else if mode == PPM_ASCII then [ts[0].n % 256, ts[1].n % 256, ts[2].n % 256] + Shown(mode, ts[3..], n - 1)
    else
      var v: byte := if mode == PBM_ASCII then (if ts[0].n == 1 then 255 else 0) else ts[0].n % 256;
      [v, v, v] + Shown(mode, ts[1..], n - 1)
  }

  // One number is scanned, and the whitespace behind it is left for the next scan.
  lemma ScanToken(ws: seq<byte>, ts: seq<Token>, tail: seq<byte>)
    requires AllSpace(ws) && ts != [] && Spaced(ts)
    ensures ScanInt(ws + (TokensText(ts) + tail)) == Got(ts[0].n, ts[0].space + (TokensText(ts[1..]) + tail))
  {
    var more := ts[0].space + (TokensText(ts[1..]) + tail);
    assert TokensText(ts) + tail == PrintInt(ts[0].n) + more;
    ScanAfterSpace(ws, ts[0].n, more);
  }

  lemma SkippedScan(ws: seq<byte>, s: seq<byte>)
    requires AllSpace(ws)
    ensures ScanInt(SkipSpace(ws + s)) == ScanInt(ws + s)
  {
    SkipAllSpace(ws, s);
    SkipIdempotent(s);
  }

  lemma {:induction false} SkipIdempotent(s: seq<byte>)
    ensures SkipSpace(SkipSpace(s)) == SkipSpace(s)
  {
    if s != [] && IsSpace(s[0]) {
      SkipIdempotent(s[1..]);
    }
  }

  lemma ScanThree(st: Reader, ws: seq<byte>, ts: seq<Token>, tail: seq<byte>)
    requires AllSpace(ws) && |ts| >= 3 && Spaced(ts) && st.rest == ws + (TokensText(ts) + tail)
    ensures ScanTriple(st) == st.(rest := ts[2].space + (TokensText(ts[3..]) + tail),
                                  r := ts[0].n, g := ts[1].n, b := ts[2].n)
  {
    ScanToken(ws, ts, tail);
    assert ts[1..][0] == ts[1] && ts[1..][1..] == ts[2..];
    ScanToken(ts[0].space, ts[1..], tail);
    SkippedScan(ts[0].space, TokensText(ts[1..]) + tail);
    assert ts[2..][0] == ts[2] && ts[2..][1..] == ts[3..];
    ScanToken(ts[1].space, ts[2..], tail);
    SkippedScan(ts[1].space, TokensText(ts[2..]) + tail);
  }

  lemma ScanPixel(mode: int, st: Reader, ws: seq<byte>, ts: seq<Token>, n: nat, endOfRow: bool, tail: seq<byte>)
    requires 1 <= mode <= 3 && AllSpace(ws) && Spaced(ts) && n > 0 && |ts| == PerPixel(mode) * n
    requires st.rest == ws + (TokensText(ts) + tail)
    ensures var st' := Get(mode, st, endOfRow);
            var k := PerPixel(mode);
            && st'.rest == ts[k - 1].space + (TokensText(ts[k..]) + tail)
            && Shown(mode, ts, n) == Stored3(st') + Shown(mode, ts[k..], n - 1)
  {
    if mode == PPM_ASCII {
      ScanThree(st, ws, ts, tail);
    } else {
      ScanToken(ws, ts, tail);
    }
  }

  lemma SpacedRest(ts: seq<Token>, k: nat)
    requires Spaced(ts) && 0 < k <= |ts|
    ensures Spaced(ts[k..]) && AllSpace(ts[k - 1].space)
  {
  }

  lemma {:induction false} GetTokens(mode: int, st: Reader, ws: seq<byte>, ts: seq<Token>, n: nat, tail: seq<byte>)
    requires 1 <= mode <= 3 && AllSpace(ws) && Spaced(ts) && |ts| == PerPixel(mode) * n
    requires st.rest == ws + (TokensText(ts) + tail)
    ensures GetRow(mode, st, n) == Shown(mode, ts, n)
    decreases n
  {
    if n > 0 {
      hide Get, Shown, TokensText, Spaced;
      var k := PerPixel(mode);
      SpacedRest(ts, k);
      ScanPixel(mode, st, ws, ts, n, n == 1, tail);
      GetTokens(mode, Get(mode, st, n == 1), ts[k - 1].space, ts[k..], n - 1, tail);
    }
  }

  // Without bit packing the end of a row means nothing to the reader.
  lemma {:induction false} RowAnywhere(mode: int, st: Reader, a: nat, b: nat)
    requires mode != PBM_RAW
    ensures GetRow(mode, st, a + b) == GetRow(mode, st, a) + GetRow(mode, AfterRow(mode, st, a), b)
    decreases a
  {
    if a > 0 {
      assert Get(mode, st, a == 1) == Get(mode, st, a + b == 1);
      RowAnywhere(mode, Get(mode, st, a == 1), a - 1, b);
    } else {
      assert [] + GetRow(mode, st, b) == GetRow(mode, st, b);
    }
  }

  lemma {:induction false} RowsAsOne(mode: int, st: Reader, w: nat, n: nat)
    requires mode != PBM_RAW
    ensures GetRows(mode, st, w, n) == GetRow(mode, st, w * n)
    decreases n
  {
    if n > 0 {
      RowsAsOne(mode, AfterRow(mode, st, w), w, n - 1);
      assert w * n == w + w * (n - 1);
      RowAnywhere(mode, st, w, w * (n - 1));
    } else {
      assert w * 0 == 0;
    }
  }

  // The pixels of any plain file, whatever its line breaks, spaces and numbers.
  lemma PlainNumbers(mode: int, ws: seq<byte>, ts: seq<Token>, w: nat, h: nat, tail: seq<byte>)
    requires 1 <= mode <= 3 && AllSpace(ws) && Spaced(ts) && |ts| == PerPixel(mode) * (w * h) && w > 0 && h > 0
    ensures 3 * h * w >= 0
    ensures Pixels(mode, w, h, ws + (TokensText(ts) + tail)) == Shown(mode, ts, w * h)
  {
    assert 3 * h * w >= 0;
    var st := Reader(ws + (TokensText(ts) + tail), 0, 0, 0, 0, 0);
    RowsAsOne(mode, st, w, h);
    GetTokens(mode, st, ws, ts, w * h, tail);
  }

  // What follows the sizes of a plain file: a maximum, unless it is a bitmap, and the numbers.
  function PlainBody(mode: int, max: int, ws: seq<byte>, ts: seq<Token>, tail: seq<byte>): seq<byte>
  {
    if mode == PBM_ASCII then ws + (TokensText(ts) + tail) else PrintInt(max) + (ws + (TokensText(ts) + tail))
  }

  // A plain file of any layout is read number by number; in a bitmap only 1 is white.
  lemma PlainFile(first: seq<byte>, comments: seq<seq<byte>>, w: nat, h: nat, note: seq<byte>, max: int,
                  ws: seq<byte>, ts: seq<Token>, tail: seq<byte>, w0: int, h0: int)
    requires NoNewline(first) && |first| < 255 && ShortComments(comments) && GoodSizesLine(w, h, note)
    requires GoodModeLine(first) && first[1] <= 51 && max > 0 && w > 0 && h > 0
    requires AllSpace(ws) && ws != [] && Spaced(ts) && |ts| == PerPixel(first[1] - 48) * (w * h)
    ensures var mode := first[1] - 48;
            ReadFile(FileWith(first, comments, w, h, note, PlainBody(mode, max, ws, ts, tail)), w0, h0)
            == Image(mode, w, h, Shown(mode, ts, w * h))
  {
    hide ReadHead, Pixels, FileWith, GoodSizesLine, ShortComments, TokensText;
    var mode := first[1] - 48;
    var data := TokensText(ts) + tail;
    HeaderRead(first, comments, w, h, note, PlainBody(mode, max, ws, ts, tail), max, ws + data, w0, h0);
    NotNegative(w, h);
    PlainNumbers(mode, ws, ts, w, h, tail);
    PlainNumbers(mode, [], ts, w, h, tail);
    SkipAllSpace(ws, data);
    StartsWithNumber(ts, tail, w * h, mode);
    assert [] + data == data;
  }

  lemma NotNegative(w: nat, h: nat)
    requires w > 0 && h > 0
    ensures 3 * h * w >= 0 && w * h > 0
  {
  }

  lemma StartsWithNumber(ts: seq<Token>, tail: seq<byte>, n: nat, mode: int)
    requires n > 0 && |ts| == PerPixel(mode) * n
    ensures SkipSpace(TokensText(ts) + tail) == TokensText(ts) + tail
  {
    assert ts != [];
    assert TokensText(ts) + tail == PrintInt(ts[0].n) + (ts[0].space + TokensText(ts[1..]) + tail);
    assert !IsSpace(PrintInt(ts[0].n)[0]);
  }

  // ----- raw files, complete or cut off

  // Byte `k` of a file that goes on with -1, stored as 255, for ever.
  function ByteOr255(s: seq<byte>, k: nat): byte
  {
    if k < |s| then s[k] else 255
  }

  // The pixel that byte `k` and perhaps the two after it make.
  function RawPixel(mode: int, s: seq<byte>, k: nat): Pixel
  {
    if mode == PGM_RAW then Pixel(ByteOr255(s, k), ByteOr255(s, k), ByteOr255(s, k))
    else Pixel(ByteOr255(s, 3 * k), ByteOr255(s, 3 * k + 1), ByteOr255(s, 3 * k + 2))
  }

  lemma {:induction false} RawBytes(mode: int, st: Reader, n: nat, x: nat)
    requires (mode == PGM_RAW || mode == PPM_RAW) && x < n
    ensures PixelAt(GetRow(mode, st, n), x) == RawPixel(mode, st.rest, x)
    decreases n
  {
    hide Get;
    var st' := Get(mode, st, n == 1);
    var row, more := GetRow(mode, st, n), GetRow(mode, st', n - 1);
    assert row == Stored3(st') + more;
    RawRest(mode, st, n == 1);
    if x > 0 {
      RawBytes(mode, st', n - 1, x - 1);
      assert PixelAt(row, x) == PixelAt(more, x - 1);
    }
  }

  lemma RawRest(mode: int, st: Reader, endOfRow: bool)
    requires mode == PGM_RAW || mode == PPM_RAW
    ensures var st', k := Get(mode, st, endOfRow), if mode == PGM_RAW then 1 else 3;
            && st'.rest == (if |st.rest| <= k then [] else st.rest[k..])
            && Stored3(st')[0] == ByteOr255(st.rest, 0)
            && Stored3(st')[1] == ByteOr255(st.rest, if k == 1 then 0 else 1)
            && Stored3(st')[2] == ByteOr255(st.rest, if k == 1 then 0 else 2)
  {
  }

  // The pixels of any raw grey or colour file; what a file that is too short lacks comes out white.
  lemma RawPixels(mode: int, rest: seq<byte>, w: nat, h: nat, k: nat)
    requires (mode == PGM_RAW || mode == PPM_RAW) && w > 0 && h > 0 && k < w * h
    ensures 3 * h * w >= 0 && |Pixels(mode, w, h, rest)| == 3 * (w * h)
    ensures PixelAt(Pixels(mode, w, h, rest), k) == RawPixel(mode, rest, k)
  {
    assert 3 * h * w >= 0;
    var st := Reader(rest, 0, 0, 0, 0, 0);
    RowsAsOne(mode, st, w, h);
    RawBytes(mode, st, w * h, k);
  }

  // A raw grey or colour file with one or more whitespace bytes after the maximum.
  lemma RawFile(first: seq<byte>, comments: seq<seq<byte>>, w: nat, h: nat, note: seq<byte>, max: int,
                ws: seq<byte>, data: seq<byte>, k: nat, w0: int, h0: int)
    requires NoNewline(first) && |first| < 255 && ShortComments(comments) && GoodSizesLine(w, h, note)
    requires GoodModeLine(first) && first[1] >= 53 && 0 < max <= 255 && w > 0 && h > 0 && k < w * h
    requires AllSpace(ws) && ws != [] && (data == [] || !IsSpace(data[0]))
    ensures var mode := first[1] - 48;
            var res := ReadFile(FileWith(first, comments, w, h, note, PrintInt(max) + (ws + data)), w0, h0);
            && res.Image? && res.mode == mode && res.width == w && res.height == h && |res.data| == 3 * (w * h)
            && PixelAt(res.data, k) == RawPixel(mode, data, k)
  {
    hide ReadHead, Pixels, FileWith, GoodSizesLine, ShortComments;
    var mode := first[1] - 48;
    HeaderRead(first, comments, w, h, note, PrintInt(max) + (ws + data), max, ws + data, w0, h0);
    NotNegative(w, h);
    SkipAllSpace(ws, data);
    RawPixels(mode, data, w, h, k);
  }

  // A file is rejected if its first line is no mode line, and if its maximum is not positive or,
  // in a raw file, above 255.
  lemma FileRejected(first: seq<byte>, comments: seq<seq<byte>>, w: nat, h: nat, note: seq<byte>,
                     max: int, tail: seq<byte>, w0: int, h0: int)
    requires NoNewline(first) && |first| < 255 && ShortComments(comments) && GoodSizesLine(w, h, note)
    requires tail == [] || !IsDigit(tail[0])
    ensures ReadFile(FileWith(first, comments, w, h, note, PrintInt(max) + tail), w0, h0) == Fatal <==>
            !GoodModeLine(first) || (first[1] != 49 && first[1] != 52 && (max <= 0 || (first[1] >= 53 && max > 255)))
  {
    hide ReadHead, Pixels, FileWith, GoodSizesLine, ShortComments;
    HeaderRead(first, comments, w, h, note, PrintInt(max) + tail, max, tail, w0, h0);
    assert 3 * h * w >= 0;
  }

  // With one negative size the file is rejected, with two the image is all zero and none is read.
  lemma NegativeSizes(first: seq<byte>, comments: seq<seq<byte>>, w: int, h: int, note: seq<byte>,
                      body: seq<byte>, w0: int, h0: int)
    requires NoNewline(first) && |first| < 255 && ShortComments(comments) && GoodSizesLine(w, h, note)
    requires GoodModeLine(first) && (first[1] == 49 || first[1] == 52) && w < 0 && h != 0
    ensures var res := ReadFile(FileWith(first, comments, w, h, note, body), w0, h0);
            if h > 0 then res == Fatal
            else
              && res.Image? && res.width == w && res.height == h
              && |res.data| == 3 * (-w * -h) && forall k :: 0 <= k < |res.data| ==> res.data[k] == 0
  {
    hide ReadHead, FileWith, GoodSizesLine, ShortComments;
    HeaderRead(first, comments, w, h, note, body, 0, [], w0, h0);
    ProductSign(w, h);
  }

  lemma ProductSign(w: int, h: int)
    requires w < 0 && h != 0
    ensures h > 0 ==> 3 * h * w < 0
    ensures h < 0 ==> 3 * h * w == 3 * (-w * -h) > 0
  {
    if h > 0 {
      assert h * w < 0;
    } else {
      assert h * w > 0;
    }
  }

  // Plain data that ends too early: a bitmap goes on black, the others repeat the last numbers.
  lemma {:induction false} CutOffText(mode: int, st: Reader, n: nat, x: nat)
    requires 1 <= mode <= 3 && st.rest == [] && x < n && (mode == 1 ==> st.r != 1)
    ensures PixelAt(GetRow(mode, st, n), x) ==
            if mode == 1 then Pixel(0, 0, 0)
            else if mode == 2 then Pixel(st.r % 256, st.r % 256, st.r % 256)
            else Pixel(st.r % 256, st.g % 256, st.b % 256)
    decreases n
  {
    var st' := Get(mode, st, n == 1);
    var row, more := GetRow(mode, st, n), GetRow(mode, st', n - 1);
    assert row == Stored3(st') + more;
    if x > 0 {
      CutOffText(mode, st', n - 1, x - 1);
      assert PixelAt(row, x) == PixelAt(more, x - 1);
    }
  }

  // A line without a number leaves both sizes as they were, one with a single number the height.
  lemma SizesMissing(mode: int, w: int, note: seq<byte>, rest: seq<byte>, w0: int, h0: int)
    requires mode == 1 || mode == 4
    requires note != [] && !IsSpace(note[0]) && !IsDigit(note[0]) && note[0] != 43 && note[0] != 45
    ensures SizesAndMaximum(mode, note, rest, w0, h0) == Head(mode, w0, h0, rest)
    ensures SizesAndMaximum(mode, PrintInt(w) + note, rest, w0, h0) == Head(mode, w, h0, rest)
  {
    ScanPrintedInt(w, note);
  }
}
