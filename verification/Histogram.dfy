/** The grey-value histogram of an image, computed at once and by threads over blocks of rows. */
module Histogram {
  import opened Sums
  import opened Text
  import opened NetpbmFormat

  const BINS := 256

  // The bin of pixel number `k`.
  function BinOf(image: seq<byte>, k: nat): byte
    requires 3 * k + 2 < |image|
  {
    Grey(PixelAt(image, k))
  }

  // A pixel belongs into bin `v` if `v` is the mean of its three bytes, rounded down.
  predicate InBin(image: seq<byte>, k: nat, v: int)
    requires 3 * k + 2 < |image|
  {
    3 * v <= image[3 * k] + image[3 * k + 1] + image[3 * k + 2] < 3 * v + 3
  }

  lemma BinIsMean(image: seq<byte>, k: nat, v: int)
    requires 3 * k + 2 < |image|
    ensures BinOf(image, k) == v <==> InBin(image, k, v)
  {
    GreyIsMean(PixelAt(image, k));
  }

  ghost predicate HasPixels(image: seq<byte>, w: nat, to: nat)
  {
    3 * (w * to) <= |image|
  }

  lemma PixelInside(image: seq<byte>, w: nat, x: nat, y: nat, to: nat)
    requires HasPixels(image, w, to) && x < w && y < to
    ensures 0 <= y * w + x < w * to && 3 * (y * w + x) + 2 < |image|
  {
    IndexInside(x, y, w, to);
  }

  function Hit(image: seq<byte>, w: nat, x: nat, y: nat, to: nat, v: int): nat
    requires HasPixels(image, w, to) && x < w && y < to
  {
    PixelInside(image, w, x, y, to);
    if BinOf(image, y * w + x) == v then 1 else 0
  }

  // How many pixels of column `x`, rows `from` to `y`, fall into bin `v`.
  function Column(image: seq<byte>, w: nat, x: nat, from: nat, y: nat, to: nat, v: int): nat
    requires HasPixels(image, w, to) && x < w && from <= y <= to
    decreases y
  {
    if y == from then 0 else Column(image, w, x, from, y - 1, to, v) + Hit(image, w, x, y - 1, to, v)
  }

  // The same over the first `x` columns.
  function Columns(image: seq<byte>, w: nat, x: nat, from: nat, y: nat, to: nat, v: int): nat
    requires HasPixels(image, w, to) && x <= w && from <= y <= to
    decreases x
  {
    if x == 0 then 0 else Columns(image, w, x - 1, from, y, to, v) + Column(image, w, x - 1, from, y, to, v)
  }

  // The independent definition: how many of the first `n` pixels of the image belong into bin `v`.
  function CountPixels(image: seq<byte>, n: nat, v: int): nat
    requires 3 * n <= |image|
  {
    if n == 0 then 0 else CountPixels(image, n - 1, v) + if InBin(image, n - 1, v) then 1 else 0
  }

  // ----- column by column reaches every pixel once

  // The first `x` pixels of row `y`.
  function RowHits(image: seq<byte>, w: nat, x: nat, y: nat, to: nat, v: int): nat
    requires HasPixels(image, w, to) && x <= w && y < to
    decreases x
  {
    if x == 0 then 0 else RowHits(image, w, x - 1, y, to, v) + Hit(image, w, x - 1, y, to, v)
  }

  lemma {:induction false} AddRow(image: seq<byte>, w: nat, x: nat, from: nat, y: nat, to: nat, v: int)
    requires HasPixels(image, w, to) && x <= w && from <= y < to
    ensures Columns(image, w, x, from, y + 1, to, v)
         == Columns(image, w, x, from, y, to, v) + RowHits(image, w, x, y, to, v)
    decreases x
  {
    if x > 0 {
      AddRow(image, w, x - 1, from, y, to, v);
    }
  }

  lemma RowInside(w: nat, x: nat, y: nat, to: nat)
    requires x <= w && y < to
    ensures 0 <= y * w <= y * w + x <= w * to
  {
    assert (y + 1) * w <= to * w;
  }

  // `first` is the number of the first pixel of row `y`.
  lemma {:induction false} CountRow(image: seq<byte>, w: nat, x: nat, y: nat, first: nat, to: nat, v: int)
    requires HasPixels(image, w, to) && x <= w && y < to && first == y * w
    ensures first + x <= w * to
    ensures CountPixels(image, first + x, v) == CountPixels(image, first, v) + RowHits(image, w, x, y, to, v)
    decreases x
  {
    RowInside(w, x, y, to);
    if x > 0 {
      CountRow(image, w, x - 1, y, first, to, v);
      var k := first + (x - 1);
      BinIsMean(image, k, v);
      assert CountPixels(image, k + 1, v) == CountPixels(image, k, v) + Hit(image, w, x - 1, y, to, v);
    }
  }

  lemma {:induction false} NoRows(image: seq<byte>, w: nat, x: nat, from: nat, to: nat, v: int)
    requires HasPixels(image, w, to) && x <= w && from <= to
    ensures Columns(image, w, x, from, from, to, v) == 0
    decreases x
  {
    if x > 0 {
      NoRows(image, w, x - 1, from, to, v);
    }
  }

  // The column-major walk over rows `from` to `y` counts the pixels from from * w to y * w.
  lemma {:induction false} ColumnsCountPixels(image: seq<byte>, w: nat, from: nat, y: nat, to: nat, v: int)
    requires HasPixels(image, w, to) && from <= y <= to
    ensures 0 <= from * w <= y * w <= w * to
    ensures CountPixels(image, from * w, v) + Columns(image, w, w, from, y, to, v) == CountPixels(image, y * w, v)
    decreases y
  {
    MulMonotone(from, y, w);
    MulMonotone(y, to, w);
    if y == from {
      NoRows(image, w, w, from, to, v);
    } else {
      var z, first := y - 1, (y - 1) * w;
      ColumnsCountPixels(image, w, from, z, to, v);
      AddRow(image, w, w, from, z, to, v);
      CountRow(image, w, w, z, first, to, v);
      assert first + w == y * w;
    }
  }

  // ----- the loops

  method MakeHistogramTh(image: array<byte>, width: nat, from_y: nat, to_y: nat, histogram: array<nat>)
    requires HasPixels(image[..], width, to_y) && from_y <= to_y && histogram.Length == BINS
    modifies histogram
    ensures forall v :: 0 <= v < BINS ==>
              histogram[v] == old(histogram[v]) + Columns(image[..], width, width, from_y, to_y, to_y, v)
  {
    for x := 0 to width
      invariant forall v :: 0 <= v < BINS ==>
                  histogram[v] == old(histogram[v]) + Columns(image[..], width, x, from_y, to_y, to_y, v)
    {
      for y := from_y to to_y
        invariant forall v :: 0 <= v < BINS ==>
                    histogram[v] == old(histogram[v]) + Columns(image[..], width, x, from_y, to_y, to_y, v)
                                    + Column(image[..], width, x, from_y, y, to_y, v)
      {
        PixelInside(image[..], width, x, y, to_y);
        var offset := (x + y * width) * 3;
        var valueR: int, valueG: int, valueB: int := image[offset], image[offset + 1], image[offset + 2];
        var value := (valueR + valueG + valueB) / 3;
        assert value == BinOf(image[..], y * width + x);
        histogram[value] := histogram[value] + 1;
      }
    }
  }

  // make_histogram: the whole image, with every bin counting the pixels of its value.
  method MakeHistogram(image: array<byte>, width: nat, height: nat, histogram: array<nat>)
    requires image.Length == 3 * (width * height) && histogram.Length == BINS
    modifies histogram
    ensures forall v :: 0 <= v < BINS ==>
              histogram[v] == old(histogram[v]) + CountPixels(image[..], width * height, v)
  {
    ColumnsOfImage(image[..], width, height);
    MakeHistogramTh(image, width, 0, height, histogram);
  }

  lemma ColumnsOfImage(image: seq<byte>, w: nat, height: nat)
    requires |image| == 3 * (w * height)
    ensures HasPixels(image, w, height)
    ensures forall v :: 0 <= v < BINS ==>
              Columns(image, w, w, 0, height, height, v) == CountPixels(image, w * height, v)
  {
    forall v | 0 <= v < BINS
      ensures Columns(image, w, w, 0, height, height, v) == CountPixels(image, w * height, v)
    {
      ColumnsCountPixels(image, w, 0, height, height, v);
    }
  }

  // ----- the threads

  // thread_data: the block of rows, how far the walk over it has come, and the thread's own bins.
  datatype Walk = Walk(from: nat, to: nat, x: nat, y: nat, bins: seq<nat>)

  // The bins hold the columns before `x` and the rows before `y` of column `x`.
  ghost predicate Counted(image: seq<byte>, w: nat, p: Walk)
  {
    && HasPixels(image, w, p.to) && p.from <= p.y <= p.to && p.x <= w && |p.bins| == BINS
    && (p.x == w ==> p.y == p.from)
    && forall v :: 0 <= v < BINS ==>
         p.bins[v] == Columns(image, w, p.x, p.from, p.to, p.to, v)
                      + if p.x < w then Column(image, w, p.x, p.from, p.y, p.to, v) else 0
  }

  // The threads count correctly up to where they are, each in the block it was given.
  ghost predicate AllCounted(image: seq<byte>, w: nat, walks: seq<Walk>, cuts: seq<nat>)
    requires |cuts| == |walks| + 1
  {
    forall k {:trigger walks[k]} :: 0 <= k < |walks| ==>
      Counted(image, w, walks[k]) && walks[k].from == cuts[k] && walks[k].to == cuts[k + 1]
  }

  // How many steps a walk has made; going on to the next column is a step of its own.
  ghost function Position(p: Walk): nat
    requires p.from <= p.y <= p.to
  {
    p.x * (p.to - p.from + 1) + p.y - p.from
  }

  ghost function Last(p: Walk, w: nat): nat
    requires p.from <= p.to
  {
    w * (p.to - p.from + 1)
  }

  // The next step of the two loops of make_histogram_th: a pixel, or on to the next column.
  method Advance(image: array<byte>, width: nat, p: Walk) returns (q: Walk)
    requires Counted(image[..], width, p) && p.x < width
    ensures Counted(image[..], width, q) && q.from == p.from && q.to == p.to
    ensures if p.y < p.to then q.x == p.x && q.y == p.y + 1 else q.x == p.x + 1
    ensures Position(q) == Position(p) + 1 <= Last(p, width) == Last(q, width)
  {
    if p.y < p.to {
      PixelInside(image[..], width, p.x, p.y, p.to);
      var offset := (p.x + p.y * width) * 3;
      var valueR: int, valueG: int, valueB: int := image[offset], image[offset + 1], image[offset + 2];
      var value := (valueR + valueG + valueB) / 3;
      assert value == BinOf(image[..], p.y * width + p.x);
      q := p.(y := p.y + 1, bins := p.bins[value := p.bins[value] + 1]);
    } else {
      q := p.(x := p.x + 1, y := p.from);
    }
    OneStep(p, q, width);
  }

  lemma OneStep(p: Walk, q: Walk, w: nat)
    requires p.from <= p.y <= p.to && p.x < w && q.from == p.from && q.to == p.to
    requires if p.y < p.to then q.x == p.x && q.y == p.y + 1 else q.x == p.x + 1 && q.y == p.from
    ensures Position(q) == Position(p) + 1 <= Last(p, w) == Last(q, w)
  {
    var column := p.to - p.from + 1;
    assert (p.x + 1) * column == p.x * column + column;
    assert (p.x + 1) * column <= w * column;
  }

  // From `p` to `q` in `n` turns; a walk at its end stays there.
  ghost predicate Moved(p: Walk, q: Walk, n: nat, w: nat)
  {
    && p.from == q.from <= p.y <= p.to && q.from <= q.y <= q.to == p.to
    && Position(q) == UpTo(Position(p) + n, Last(p, w))
  }

  lemma MovedOn(p: Walk, q: Walk, r: Walk, n: nat, m: nat, w: nat)
    requires Moved(p, q, n, w) && Moved(q, r, m, w)
    ensures Moved(p, r, n + m, w)
  {
  }

  // One turn of a thread.
  method Turn(image: array<byte>, width: nat, p: Walk) returns (q: Walk)
    requires Counted(image[..], width, p)
    ensures Counted(image[..], width, q) && Moved(p, q, 1, width)
  {
    q := p;
    if p.x < width {
      q := Advance(image, width, p);
    }
  }

  lemma Stays(image: seq<byte>, w: nat, p: Walk)
    requires Counted(image, w, p)
    ensures Position(p) <= Last(p, w) && Moved(p, p, 0, w)
  {
    var column := p.to - p.from + 1;
    if p.x < w {
      assert (p.x + 1) * column == p.x * column + column;
      assert (p.x + 1) * column <= w * column;
    }
  }

  // The threads run for a while: `schedule` says whose turn each step is.
  method Interleave(image: array<byte>, width: nat, walks: array<Walk>, schedule: seq<nat>, ghost cuts: seq<nat>)
    requires |cuts| == walks.Length + 1 && AllCounted(image[..], width, walks[..], cuts)
    modifies walks
    ensures AllCounted(image[..], width, walks[..], cuts)
    ensures forall k :: 0 <= k < walks.Length ==> Moved(old(walks[k]), walks[k], Turns(schedule, |schedule|, k), width)
  {
    forall k | 0 <= k < walks.Length ensures Moved(walks[k], walks[k], 0, width) {
      Stays(image[..], width, walks[..][k]);
    }
    for t := 0 to |schedule|
      invariant AllCounted(image[..], width, walks[..], cuts)
      invariant forall k :: 0 <= k < walks.Length ==> Moved(old(walks[k]), walks[k], Turns(schedule, t, k), width)
    {
      var i := schedule[t];
      if i < walks.Length {
        ghost var p := walks[..][i];
        walks[i] := Turn(image, width, walks[i]);
        MovedOn(old(walks[..])[i], p, walks[i], Turns(schedule, t, i), 1, width);
      }
    }
  }

  // Thread `i` to its end: what pthread_join waits for.
  method Finish(image: array<byte>, width: nat, walks: array<Walk>, i: nat, ghost cuts: seq<nat>)
    requires |cuts| == walks.Length + 1 && i < walks.Length && AllCounted(image[..], width, walks[..], cuts)
    modifies walks
    ensures AllCounted(image[..], width, walks[..], cuts) && walks[i].x == width
    ensures forall k :: 0 <= k < walks.Length && k != i ==> walks[k] == old(walks[k])
  {
    while walks[i].x < width
      invariant AllCounted(image[..], width, walks[..], cuts)
      invariant forall k :: 0 <= k < walks.Length && k != i ==> walks[k] == old(walks[k])
      decreases width - walks[i].x, walks[i].to - walks[i].y
    {
      walks[i] := Advance(image, width, walks[i]);
    }
  }

  // Where block `i` begins; the last block takes the remainder of the division.
  function Cut(height: nat, blocks: nat, i: nat): (k: nat)
    requires i <= blocks && blocks > 0
    ensures (i == 0 ==> k == 0) && (i == blocks ==> k == height)
  {
    if i == blocks then height else i * (height / blocks)
  }

  function Start(from: nat, to: nat): Walk
  {
    Walk(from, to, 0, from, seq(BINS, _ => 0))
  }

  // Before the threads start: consecutive blocks between the cuts, and empty bins.
  ghost predicate Blank(height: nat, walks: seq<Walk>, cuts: seq<nat>)
  {
    && |cuts| == |walks| + 1
    && forall k {:trigger walks[k]} :: 0 <= k < |walks| ==>
         && cuts[k] <= cuts[k + 1] <= height
         && walks[k] == Start(cuts[k], cuts[k + 1])
  }

  // The loop that fills `parameters`, and the extension of the last block.
  method Partition(height: nat, blocks: nat) returns (walks: array<Walk>, ghost cuts: seq<nat>)
    requires blocks > 0
    ensures fresh(walks) && walks.Length == blocks && Blank(height, walks[..], cuts)
    ensures cuts == seq(blocks + 1, (k: nat) requires k <= blocks => Cut(height, blocks, k))
    ensures forall k :: 0 <= k < blocks ==>
              walks[k].to - walks[k].from == height / blocks + if k == blocks - 1 then height % blocks else 0
  {
    walks := new Walk[blocks](_ => Start(0, 0));
    var block_size := height / blocks;
    var start := 0;
    for i := 0 to blocks
      invariant start == i * block_size
      invariant forall k :: 0 <= k < i ==> walks[k] == EvenBlock(block_size, k)
    {
      walks[i] := Start(start, start + block_size);
      start := start + block_size;
    }
    ExtendLast(height, blocks, walks[..]);
    walks[blocks - 1] := walks[blocks - 1].(to := height);
    cuts := seq(blocks + 1, (k: nat) requires k <= blocks => Cut(height, blocks, k));
    forall k | 0 <= k < blocks
      ensures walks[k].to - walks[k].from == height / blocks + if k == blocks - 1 then height % blocks else 0
    {
      assert walks[..][k] == Start(cuts[k], cuts[k + 1]);
      BlockHeights(height, blocks, k);
    }
  }

  function EvenBlock(size: nat, k: nat): Walk
  {
    Start(k * size, k * size + size)
  }

  lemma ExtendLast(height: nat, blocks: nat, walks: seq<Walk>)
    requires blocks > 0 && |walks| == blocks
    requires forall k :: 0 <= k < blocks ==> walks[k] == EvenBlock(height / blocks, k)
    ensures Blank(height, walks[blocks - 1 := walks[blocks - 1].(to := height)],
                  seq(blocks + 1, (k: nat) requires k <= blocks => Cut(height, blocks, k)))
  {
    var extended := walks[blocks - 1 := walks[blocks - 1].(to := height)];
    forall k {:trigger extended[k]} | 0 <= k < blocks
      ensures Cut(height, blocks, k) <= Cut(height, blocks, k + 1) <= height
              && extended[k] == Start(Cut(height, blocks, k), Cut(height, blocks, k + 1))
    {
      CutsInOrder(height, blocks, k);
    }
  }

  // The bins are those of the first `rows` rows of the image.
  ghost predicate HasCounts(image: seq<byte>, w: nat, rows: nat, bins: seq<nat>)
  {
    && 3 * (rows * w) <= |image| && |bins| == BINS
    && forall v :: 0 <= v < BINS ==> bins[v] == CountPixels(image, rows * w, v)
  }

  // For every number of blocks, and whatever the threads do before each join (`schedules`): the
  // merged histogram is the histogram of the whole image.
  method MakeHistogramBlocks(image: array<byte>, width: nat, height: nat, blocks: nat, schedules: seq<seq<nat>>)
    returns (histogram: array<nat>)
    requires image.Length == 3 * (width * height) && blocks > 0 && |schedules| == blocks
    ensures fresh(histogram) && histogram.Length == BINS
    ensures forall v :: 0 <= v < BINS ==> histogram[v] == CountPixels(image[..], width * height, v)
  {
    histogram := new nat[BINS](_ => 0);
    var walks, cuts := Partition(height, blocks);
    StartCounted(image[..], width, height, walks[..], cuts);
    for i := 0 to blocks
      invariant AllCounted(image[..], width, walks[..], cuts)
      invariant HasCounts(image[..], width, cuts[i], histogram[..])
    {
      Join(image, width, walks, i, schedules[i], histogram, cuts);
    }
    AllRows(image[..], width, height, histogram[..]);
  }

  // One round of the join loop: the threads run, thread `i` to its end, and its bins are added.
  method Join(image: array<byte>, width: nat, walks: array<Walk>, i: nat, schedule: seq<nat>, histogram: array<nat>,
              ghost cuts: seq<nat>)
    requires |cuts| == walks.Length + 1 && i < walks.Length && AllCounted(image[..], width, walks[..], cuts)
    requires HasCounts(image[..], width, cuts[i], histogram[..])
    modifies walks, histogram
    ensures AllCounted(image[..], width, walks[..], cuts)
    ensures HasCounts(image[..], width, cuts[i + 1], histogram[..])
  {
    Interleave(image, width, walks, schedule, cuts);
    Finish(image, width, walks, i, cuts);
    ghost var p := walks[..][i];
    assert Counted(image[..], width, p) && p.from == cuts[i] && p.to == cuts[i + 1];
    forall v | 0 <= v < BINS
      ensures 3 * (p.to * width) <= image.Length
      ensures CountPixels(image[..], p.from * width, v) + p.bins[v] == CountPixels(image[..], p.to * width, v)
    {
      ColumnsCountPixels(image[..], width, p.from, p.to, p.to, v);
    }
    Merge(histogram, walks[i].bins);
  }

  lemma AllRows(image: seq<byte>, w: nat, height: nat, bins: seq<nat>)
    requires HasCounts(image, w, height, bins) && 3 * (w * height) <= |image|
    ensures forall v :: 0 <= v < BINS ==> bins[v] == CountPixels(image, w * height, v)
  {
    assert w * height == height * w;
  }

  lemma StartCounted(image: seq<byte>, w: nat, height: nat, walks: seq<Walk>, cuts: seq<nat>)
    requires |image| == 3 * (w * height) && Blank(height, walks, cuts)
    ensures AllCounted(image, w, walks, cuts)
  {
    forall k | 0 <= k < |walks| ensures Counted(image, w, walks[k]) {
      var p := walks[k];
      StartOne(image, w, height, p.from, p.to);
    }
  }

  lemma CutsInOrder(height: nat, blocks: nat, k: nat)
    requires k < blocks
    ensures Cut(height, blocks, k) <= Cut(height, blocks, k + 1) <= height
    ensures Cut(height, blocks, k) == k * (height / blocks)
    ensures k + 1 < blocks ==> Cut(height, blocks, k + 1) == k * (height / blocks) + height / blocks
  {
    BlockFits(height, blocks, k);
  }

  lemma StartOne(image: seq<byte>, w: nat, height: nat, from: nat, to: nat)
    requires |image| == 3 * (w * height) && from <= to <= height
    ensures Counted(image, w, Start(from, to))
  {
    MulMonotone(to, height, w);
  }

  // Every block has height / blocks rows, the last one also those that the division leaves.
  lemma BlockHeights(height: nat, blocks: nat, k: nat)
    requires k < blocks
    ensures Cut(height, blocks, k + 1) - Cut(height, blocks, k)
         == height / blocks + if k == blocks - 1 then height % blocks else 0
  {
    BlockFits(height, blocks, k);
    assert blocks * (height / blocks) == (blocks - 1) * (height / blocks) + height / blocks;
  }

  lemma BlockFits(height: nat, blocks: nat, i: nat)
    requires i < blocks
    ensures 0 <= i * (height / blocks) <= (i + 1) * (height / blocks) <= height
    ensures (i + 1) * (height / blocks) == i * (height / blocks) + height / blocks
  {
    var size := height / blocks;
    assert height == blocks * size + height % blocks;
    MulMonotone(i + 1, blocks, size);
  }

  lemma MulMonotone(a: nat, b: nat, c: nat)
    requires a <= b
    ensures a * c <= b * c
  {
  }

  method Merge(histogram: array<nat>, partial: seq<nat>)
    requires histogram.Length == BINS && |partial| == BINS
    modifies histogram
    ensures forall v :: 0 <= v < BINS ==> histogram[v] == old(histogram[v]) + partial[v]
  {
    for idx := 0 to BINS
      invariant forall v :: 0 <= v < BINS ==>
                  histogram[v] == old(histogram[v]) + if v < idx then partial[v] else 0
    {
      histogram[idx] := histogram[idx] + partial[idx];
    }
  }

  // ----- conservation: the bins add up to the number of pixels

  function BinSum(image: seq<byte>, n: nat, v: nat): nat
    requires 3 * n <= |image|
  {
    if v == 0 then 0 else BinSum(image, n, v - 1) + CountPixels(image, n, v - 1)
  }

  lemma {:induction false} BinSumStep(image: seq<byte>, n: nat, v: nat)
    requires 3 * (n + 1) <= |image|
    ensures BinSum(image, n + 1, v) == BinSum(image, n, v) + if BinOf(image, n) < v then 1 else 0
  {
    if v > 0 {
      BinSumStep(image, n, v - 1);
      BinIsMean(image, n, v - 1);
    }
  }

  lemma {:induction false} BinSumZero(image: seq<byte>, v: nat)
    ensures BinSum(image, 0, v) == 0
  {
    if v > 0 {
      BinSumZero(image, v - 1);
    }
  }

  lemma {:induction false} BinsAddUp(image: seq<byte>, n: nat)
    requires 3 * n <= |image|
    ensures BinSum(image, n, BINS) == n
  {
    if n == 0 {
      BinSumZero(image, BINS);
    } else {
      BinsAddUp(image, n - 1);
      BinSumStep(image, n - 1, BINS);
    }
  }
}
