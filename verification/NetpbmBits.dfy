/** Bit-packed rows: what the accumulator loops of writer and reader mean, bit by bit. */
module NetpbmBits {
  import opened Text
  import opened NetpbmFormat
  import opened NetpbmReader

  type bit = n: int | 0 <= n <= 1

  function Bits(row: seq<Pixel>): (bs: seq<bit>)
    ensures |bs| == |row|
  {
    seq(|row|, (x: nat) requires x < |row| => DarkBit(row[x]))
  }

  // Most significant bit first.
  function Value(bs: seq<bit>): nat
  {
    if bs == [] then 0 else 2 * Value(bs[..|bs| - 1]) + bs[|bs| - 1]
  }

  function Zeros(k: nat): (bs: seq<bit>)
    ensures |bs| == k && forall t :: 0 <= t < k ==> bs[t] == 0
  {
    seq(k, _ => 0)
  }

  lemma {:induction false} ValueBound(bs: seq<bit>)
    ensures Value(bs) < ShiftLeft(1, |bs|)
  {
    if bs != [] {
      ValueBound(bs[..|bs| - 1]);
    }
  }

  // Appending zeros shifts left, putting zeros in front changes nothing.
  lemma {:induction false} ValueShift(bs: seq<bit>, k: nat)
    ensures Value(bs + Zeros(k)) == ShiftLeft(Value(bs), k)
  {
    if k == 0 {
      assert bs + Zeros(0) == bs;
    } else {
      assert (bs + Zeros(k))[..|bs| + k - 1] == bs + Zeros(k - 1);
      ValueShift(bs, k - 1);
    }
  }

  lemma {:induction false} ValueLeading(bs: seq<bit>, k: nat)
    ensures Value(Zeros(k) + bs) == Value(bs)
  {
    if bs == [] {
      assert Zeros(k) + [] == [] + Zeros(k);
      ValueShift([], k);
      ShiftZero(k);
    } else {
      assert (Zeros(k) + bs)[..k + |bs| - 1] == Zeros(k) + bs[..|bs| - 1];
      ValueLeading(bs[..|bs| - 1], k);
    }
  }

  lemma {:induction false} ShiftZero(k: nat)
    ensures ShiftLeft(0, k) == 0
  {
    if k > 0 {
      ShiftZero(k - 1);
    }
  }

  // Up to eight bits, padded with zeros on the right.
  function Pad(bs: seq<bit>): (r: seq<bit>)
    requires |bs| <= 8
    ensures |r| == 8
  {
    bs + Zeros(8 - |bs|)
  }

  function ByteOf(bs: seq<bit>): byte
    requires |bs| <= 8
  {
    EightBits(Pad(bs));
    Value(Pad(bs))
  }

  lemma EightBits(bs: seq<bit>)
    requires |bs| == 8
    ensures Value(bs) < 256
  {
    ValueBound(bs);
    assert ShiftLeft(1, 4) == 16;
    assert ShiftLeft(1, 8) == 256;
  }

  // The accumulator of up to eight bits fits, and shifted to the left it is their byte.
  lemma AccumulatorFits(bs: seq<bit>)
    requires |bs| <= 8
    ensures Value(bs) < 256
  {
    ValueLeading(bs, 8 - |bs|);
    EightBits(Zeros(8 - |bs|) + bs);
  }

  lemma AccumulatorShifted(bs: seq<bit>, k: nat)
    requires |bs| + k == 8
    ensures ShiftLeft(Value(bs), k) == ByteOf(bs)
  {
    assert Pad(bs) == bs + Zeros(k);
    ValueShift(bs, k);
  }

  function Chunk8(bs: seq<bit>): (c: seq<bit>)
    ensures |c| <= 8
  {
    if |bs| <= 8 then bs else bs[..8]
  }

  function After8(bs: seq<bit>): seq<bit>
  {
    if |bs| <= 8 then [] else bs[8..]
  }

  function PackBits(bs: seq<bit>): seq<byte>
    decreases |bs|
  {
    if bs == [] then [] else [ByteOf(Chunk8(bs))] + PackBits(After8(bs))
  }

  lemma {:induction false} PackedLength(bs: seq<bit>)
    ensures |PackBits(bs)| == (|bs| + 7) / 8
    decreases |bs|
  {
    if bs != [] {
      PackedLength(After8(bs));
    }
  }

  // ----- the writer

  // In the middle of a row: `done` are the bits collected since the last byte went out.
  ghost predicate Collected(st: Writer, done: seq<bit>)
  {
    |done| < 8 && st.i % 8 == |done| && st.bw == Value(done)
  }

  // A row that ends with a negative counter in the middle of a byte: the remainder is negative
  // too, and the last bits are shifted out of the byte.
  predicate Lost(end: int)
  {
    end < 0 && end % 8 != 0
  }

  // The bits that go out if the bits of the last, incomplete byte may be lost.
  function Clear(lost: bool, bs: seq<bit>): (r: seq<bit>)
    ensures |r| == |bs|
    ensures forall k :: 0 <= k < |bs| ==> r[k] == if lost && k >= |bs| - |bs| % 8 then 0 else bs[k]
  {
    if lost then bs[..|bs| - |bs| % 8] + Zeros(|bs| % 8) else bs
  }

  // The counter after a row of `n` pixels.
  function CounterAfter(i: int, n: nat): int
  {
    if n == 0 || (i + n) % 8 == 0 then i + n else 0
  }

  lemma RemOf8(i: int)
    ensures Rem(i, 8) == if Lost(i) then i % 8 - 8 else i % 8
  {
  }

  lemma ShiftedByte(v: nat)
    ensures ShiftLeft(v, 8) == 256 * v
  {
    assert ShiftLeft(v, 1) == 2 * ShiftLeft(v, 0) == 2 * v;
    assert ShiftLeft(v, 3) == 2 * ShiftLeft(v, 2) == 4 * ShiftLeft(v, 1);
    assert ShiftLeft(v, 5) == 2 * ShiftLeft(v, 4) == 4 * ShiftLeft(v, 3);
    assert ShiftLeft(v, 7) == 2 * ShiftLeft(v, 6) == 4 * ShiftLeft(v, 5);
    assert ShiftLeft(v, 8) == 2 * ShiftLeft(v, 7);
  }

  lemma {:induction false} ShiftedOut(v: nat, k: nat)
    requires k >= 8
    ensures ShiftLeft(v, k) % 256 == 0
  {
    if k == 8 {
      ShiftedByte(v);
    } else {
      ShiftedOut(v, k - 1);
    }
  }

  lemma {:induction false} ValueOfZeros(k: nat)
    ensures Value(Zeros(k)) == 0
  {
    if k > 0 {
      assert Zeros(k)[..k - 1] == Zeros(k - 1);
      ValueOfZeros(k - 1);
    }
  }

  lemma ByteOfZeros(k: nat)
    requires k <= 8
    ensures ByteOf(Zeros(k)) == 0
  {
    assert Pad(Zeros(k)) == Zeros(8);
    ValueOfZeros(8);
  }

  lemma PutBitStep(st: Writer, p: Pixel, endOfRow: bool, done: seq<bit>)
    requires Collected(st, done)
    ensures var done' := done + [DarkBit(p)];
            var st' := Put(PBM_RAW, st, p, endOfRow);
            if |done'| == 8 then Collected(st', []) && st'.i == st.i + 1 && st'.out == st.out + [ByteOf(done')]
            else if endOfRow then st' == Writer(0, 0, st.out + [if Lost(st.i + 1) then 0 else ByteOf(done')])
            else Collected(st', done') && st'.i == st.i + 1 && st'.out == st.out
  {
    var done' := done + [DarkBit(p)];
    assert done'[..|done|] == done;
    AccumulatorFits(done');
    Count8(st.i);
    RemOf8(st.i + 1);
    if Lost(st.i + 1) {
      ShiftedOut(Value(done'), 16 - |done'|);
    } else {
      AccumulatorShifted(done', 8 - |done'|);
    }
  }

  // From any such point on the row goes out as its bits packed in groups of eight, padded at the
  // end. Whatever the counter was, it is a multiple of 8 afterwards, and the accumulator is 0.
  lemma {:induction false} PutBitsRow(st: Writer, row: seq<Pixel>, done: seq<bit>)
    requires Collected(st, done) && row != []
    ensures var st' := PutRow(PBM_RAW, st, row);
            && Collected(st', []) && st'.i == CounterAfter(st.i, |row|)
            && st'.out == st.out + PackBits(Clear(Lost(st.i + |row|), done + Bits(row)))
    decreases |row|
  {
    hide Put, PackBits, Clear;
    var b: bit := DarkBit(row[0]);
    var done', rest := done + [b], row[1..];
    var st' := Put(PBM_RAW, st, row[0], |row| == 1);
    PutBitStep(st, row[0], |row| == 1, done);
    Count8(st.i);
    assert done + Bits(row) == done' + Bits(rest);
    var lost := Lost(st.i + |row|);
    if rest == [] {
      PutRowEnd(lost, done');
      assert PutRow(PBM_RAW, st', rest) == st';
    } else if |done'| == 8 {
      ClearGroup(lost, done', Bits(rest));
      PutBitsRow(st', rest, []);
      assert [] + Bits(rest) == Bits(rest);
    } else {
      PutBitsRow(st', rest, done');
    }
  }

  lemma PutRowEnd(lost: bool, done: seq<bit>)
    requires 0 < |done| <= 8
    ensures PackBits(Clear(lost, done + [])) == [if lost && |done| < 8 then 0 else ByteOf(done)]
  {
    assert done + [] == done;
    if lost && |done| < 8 {
      assert Clear(lost, done) == Zeros(|done|);
      ByteOfZeros(|done|);
    } else {
      assert Clear(lost, done) == done;
    }
    assert PackBits([]) == [];
  }

  lemma ClearGroup(lost: bool, group: seq<bit>, more: seq<bit>)
    requires |group| == 8 && more != []
    ensures PackBits(Clear(lost, group + more)) == [ByteOf(group)] + PackBits(Clear(lost, more))
  {
    var all := Clear(lost, group + more);
    assert Chunk8(all) == group;
    assert After8(all) == Clear(lost, more);
  }

  // ----- the reader

  lemma {:induction false} BitOfValue(bs: seq<bit>, k: nat)
    requires k < |bs|
    ensures Bit(Value(bs), k) <==> bs[|bs| - 1 - k] == 1
    decreases k
  {
    assert Value(bs) / 2 == Value(bs[..|bs| - 1]);
    if k > 0 {
      BitOfValue(bs[..|bs| - 1], k - 1);
    }
  }

  lemma BitOfByte(bs: seq<bit>, t: nat)
    requires t < |bs| <= 8
    ensures Bit(ByteOf(bs), 7 - t) <==> bs[t] == 1
  {
    BitOfValue(Pad(bs), 7 - t);
  }

  // What the reader stores for a bit.
  function Ink(b: bit): Pixel
  {
    var v: byte := if b == 1 then 0 else 255;
    Pixel(v, v, v)
  }

  function Inked(bs: seq<bit>): (r: seq<Pixel>)
    ensures |r| == |bs|
  {
    if bs == [] then [] else [Ink(bs[0])] + Inked(bs[1..])
  }

  function Threshold(p: Pixel): Pixel
  {
    Ink(DarkBit(p))
  }

  // In the middle of a row: `done` are the bits used up of the byte in hand, `bs` those to come.
  ghost predicate Unpacking(st: Reader, done: seq<bit>, bs: seq<bit>, tail: seq<byte>)
  {
    && |done| < 8 && st.count % 8 == |done|
    && if done == [] then st.rest == PackBits(bs) + tail
       else st.bw == ByteOf(Chunk8(done + bs)) && st.rest == PackBits(After8(done + bs)) + tail
  }

  lemma ChunkSplit(done: seq<bit>, b: bit, more: seq<bit>)
    requires |done| < 8
    ensures var all := done + ([b] + more);
            && all == done + [b] + more
            && |done| < |Chunk8(all)| && Chunk8(all)[|done|] == b
            && (|done| == 7 ==> After8(all) == more)
  {
  }

  // The byte in hand at bit position |done|, and what is left of the file behind it.
  lemma ByteInHand(st: Reader, done: seq<bit>, bs: seq<bit>, tail: seq<byte>)
    requires bs != [] && Unpacking(st, done, bs, tail)
    ensures NextByte(st) == (ByteOf(Chunk8(done + bs)) as int, PackBits(After8(done + bs)) + tail)
  {
    if done == [] {
      assert done + bs == bs;
      PackHead(bs, tail);
    }
  }

  lemma PackCons(bs: seq<bit>, tail: seq<byte>)
    requires bs != []
    ensures PackBits(bs) + tail == [ByteOf(Chunk8(bs))] + (PackBits(After8(bs)) + tail)
  {
  }

  lemma GetCons(c: byte, rest: seq<byte>)
    ensures GetByte([c] + rest) == (c as int, rest)
  {
  }

  lemma PackHead(bs: seq<bit>, tail: seq<byte>)
    requires bs != []
    ensures GetByte(PackBits(bs) + tail) == (ByteOf(Chunk8(bs)) as int, PackBits(After8(bs)) + tail)
  {
    PackCons(bs, tail);
    GetCons(ByteOf(Chunk8(bs)), PackBits(After8(bs)) + tail);
  }

  lemma Count8(n: int)
    ensures (n + 1) % 8 == if n % 8 == 7 then 0 else n % 8 + 1
  {
  }

  lemma GetBitStep(st: Reader, done: seq<bit>, b: bit, more: seq<bit>, tail: seq<byte>, endOfRow: bool)
    requires Unpacking(st, done, [b] + more, tail)
    ensures var st' := GetBit(st, endOfRow);
            && |done| < 8
            && Pixel(st'.r % 256, st'.g % 256, st'.b % 256) == Ink(b)
            && st'.rest == PackBits(After8(done + [b] + more)) + tail
            && (endOfRow ==> st'.count == 0)
            && (!endOfRow ==> Unpacking(st', if |done| == 7 then [] else done + [b], more, tail))
  {
    ChunkSplit(done, b, more);
    ByteInHand(st, done, [b] + more, tail);
    BitOfByte(Chunk8(done + ([b] + more)), |done|);
    Count8(st.count);
  }

  // A row ends after `p` bits: what is left of the bits behind it when its last byte is used up.
  function Left(p: nat, junk: seq<bit>): seq<bit>
  {
    var padding := (8 - p % 8) % 8;
    if |junk| <= padding then [] else junk[padding..]
  }

  lemma SameLeft(p: nat, q: nat, junk: seq<bit>)
    requires p % 8 == q % 8
    ensures Left(p, junk) == Left(q, junk)
  {
  }

  lemma LastBit(done: seq<bit>, b: bit, junk: seq<bit>)
    requires |done| < 8
    ensures After8(done + [b] + junk) == Left(|done| + 1, junk)
  {
    var padding := 7 - |done|;
    assert (8 - (|done| + 1) % 8) % 8 == padding;
    if |junk| > padding {
      assert (done + [b] + junk)[8..] == junk[padding..];
    }
  }

  // The row comes out bit by bit, whatever other bits follow it in its last byte and behind.
  lemma {:induction false} GetBitsRow(st: Reader, done: seq<bit>, bs: seq<bit>, junk: seq<bit>, tail: seq<byte>)
    requires bs != [] && Unpacking(st, done, bs + junk, tail)
    ensures GetRow(PBM_RAW, st, |bs|) == RowBytes(Inked(bs))
    ensures var st' := AfterRow(PBM_RAW, st, |bs|);
            st'.count == 0 && st'.rest == PackBits(Left(|done| + |bs|, junk)) + tail
    decreases |bs|
  {
    hide Bit, PackBits, RowBytes, GetBit, Unpacking, After8, Left;
    var rest := bs[1..];
    assert bs + junk == [bs[0]] + (rest + junk);
    GetBitStep(st, done, bs[0], rest + junk, tail, rest == []);
    InkedBytes(bs);
    var st' := GetBit(st, rest == []);
    GetBitFirst(st, |bs|);
    var done' := if |done| == 7 then [] else done + [bs[0]];
    if rest == [] {
      assert rest + junk == junk;
      LastBit(done, bs[0], junk);
    } else {
      GetBitsRow(st', done', rest, junk, tail);
      assert (|done'| + |rest|) % 8 == (|done| + |bs|) % 8;
      SameLeft(|done'| + |rest|, |done| + |bs|, junk);
    }
  }

  lemma GetBitFirst(st: Reader, n: nat)
    requires n > 0
    ensures var st' := GetBit(st, n == 1);
            && GetRow(PBM_RAW, st, n) == Stored3(st') + GetRow(PBM_RAW, st', n - 1)
            && AfterRow(PBM_RAW, st, n) == AfterRow(PBM_RAW, st', n - 1)
  {
  }

  lemma InkedBytes(bs: seq<bit>)
    requires bs != []
    ensures var v := Ink(bs[0]).r; RowBytes(Inked(bs)) == [v, v, v] + RowBytes(Inked(bs[1..]))
  {
    assert Inked(bs)[1..] == Inked(bs[1..]);
  }
}
