/** From payload bytes to the codeword sequence of a symbol and back: byte-mode segment, padding,
    blocks and interleaving. */
module QrStream {
  import opened BitString
  import opened Gf256
  import opened ReedSolomon

  // ---- symbol sizes, error correction level M ------------------------------------------------

  /** Codewords in all, check codewords per block, and the data codewords of each block in order. */
  datatype Blocks = Blocks(total: nat, ecLen: nat, sizes: seq<nat>)

  function BlocksM(version: nat): Blocks
    requires 1 <= version <= 10
  {
    match version
    case 1 => Blocks(26, 10, [16])
    case 2 => Blocks(44, 16, [28])
    case 3 => Blocks(70, 26, [44])
    case 4 => Blocks(100, 18, [32, 32])
    case 5 => Blocks(134, 24, [43, 43])
    case 6 => Blocks(172, 16, [27, 27, 27, 27])
    case 7 => Blocks(196, 18, [31, 31, 31, 31])
    case 8 => Blocks(242, 22, [38, 38, 39, 39])
    case 9 => Blocks(292, 22, [36, 36, 36, 37, 37])
    case _ => Blocks(346, 26, [43, 43, 43, 43, 44])
  }

  /** The table adds up, and every block fits in the 255 places the field has points for. */
  lemma BlocksFacts(version: nat)
    requires 1 <= version <= 10
    ensures var b := BlocksM(version);
            && 0 < b.ecLen <= 26 && 0 < |b.sizes| <= 5
            && (forall k :: 0 <= k < |b.sizes| ==> 0 < b.sizes[k] && b.sizes[k] + b.ecLen <= 255)
            && Sum(b.sizes) + b.ecLen * |b.sizes| == b.total
            && 16 <= Sum(b.sizes) <= 216 && (version <= 9 ==> Sum(b.sizes) <= 182)
  {
    SumPair(0, 16);
    SumPair(0, 28);
    SumPair(0, 44);
    SumPair(32, 32);
    SumPair(43, 43);
    SumFour(27, 27, 27, 27);
    SumFour(31, 31, 31, 31);
    SumFour(38, 38, 39, 39);
    SumFive(36, 36, 36, 37, 37);
    SumFive(43, 43, 43, 43, 44);
    hide Sum;
  }

  /** Data codewords of a symbol. */
  function DataTotal(version: nat): (n: nat)
    requires 1 <= version <= 10
    ensures 16 <= n <= 216 && (version <= 9 ==> n <= 182)
  {
    BlocksFacts(version);
    Sum(BlocksM(version).sizes)
  }

  function Sum(s: seq<nat>): nat {
    if s == [] then 0 else Sum(s[..|s| - 1]) + s[|s| - 1]
  }

  lemma SumPair(a: nat, b: nat)
    ensures Sum([b]) == b && Sum([a, b]) == a + b
  {
    assert [b][..0] == [] && [a, b][..1] == [a];
    assert [a][..0] == [];
    assert Sum([a]) == a;
  }

  lemma SumFour(a: nat, b: nat, c: nat, d: nat)
    ensures Sum([a, b, c, d]) == a + b + c + d
  {
    SumPair(a, b);
    assert [a, b, c][..2] == [a, b] && [a, b, c, d][..3] == [a, b, c];
    assert Sum([a, b, c]) == Sum([a, b]) + c;
  }

  lemma SumFive(a: nat, b: nat, c: nat, d: nat, e: nat)
    ensures Sum([a, b, c, d, e]) == a + b + c + d + e
  {
    SumFour(a, b, c, d);
    assert [a, b, c, d, e][..4] == [a, b, c, d];
  }

  // ---- bytes and bits ------------------------------------------------------------------------

  function Flatten(bytes: seq<Byte>): (bits: seq<bool>)
    ensures |bits| == 8 * |bytes|
  {
    if bytes == [] then [] else Flatten(bytes[..|bytes| - 1]) + Bits(bytes[|bytes| - 1])
  }

  function Chunks(bits: seq<bool>): (bytes: seq<Byte>)
    requires |bits| % 8 == 0
    ensures |bytes| == |bits| / 8
  {
    if bits == [] then [] else Chunks(bits[..|bits| - 8]) + [FromBits(bits[|bits| - 8..])]
  }

  lemma BitsThenByte(b: Byte)
    ensures FromBits(Bits(b)) == b
  {
  }

  lemma ByteThenBits(s: seq<bool>)
    requires |s| == 8
    ensures Bits(FromBits(s)) == s
  {
    var t := Bits(FromBits(s));
    assert t[0] == s[0] && t[1] == s[1] && t[2] == s[2] && t[3] == s[3];
    assert t[4] == s[4] && t[5] == s[5] && t[6] == s[6] && t[7] == s[7];
  }

  lemma {:induction false} FlattenChunks(bits: seq<bool>)
    requires |bits| % 8 == 0
    ensures Flatten(Chunks(bits)) == bits
  {
    hide Bits, FromBits;
    if bits != [] {
      var n := |bits| - 8;
      FlattenChunks(bits[..n]);
      ByteThenBits(bits[n..]);
      var c := Chunks(bits);
      assert c[..|c| - 1] == Chunks(bits[..n]);
      assert bits == bits[..n] + bits[n..];
    }
  }

  lemma {:induction false} ChunksFlatten(bytes: seq<Byte>)
    ensures Chunks(Flatten(bytes)) == bytes
  {
    hide Bits, FromBits;
    if bytes != [] {
      var n := |bytes| - 1;
      ChunksFlatten(bytes[..n]);
      BitsThenByte(bytes[n]);
      var f := Flatten(bytes);
      assert f[..|f| - 8] == Flatten(bytes[..n]) && f[|f| - 8..] == Bits(bytes[n]);
      assert bytes == bytes[..n] + [bytes[n]];
    }
  }

  lemma {:induction false} FlattenConcat(a: seq<Byte>, b: seq<Byte>)
    ensures Flatten(a + b) == Flatten(a) + Flatten(b)
  {
    hide Bits;
    if b == [] {
      assert a + b == a;
    } else {
      var n := |b| - 1;
      FlattenConcat(a, b[..n]);
      assert (a + b)[..|a| + n] == a + b[..n];
    }
  }

  // ---- the byte-mode segment -----------------------------------------------------------------

  function CountBits(version: nat): nat {
    if version <= 9 then 8 else 16
  }

  function Capacity(version: nat): nat
    requires 1 <= version <= 10
  {
    (DataTotal(version) * 8 - 4 - CountBits(version)) / 8
  }

  function Zeros(n: nat): seq<bool> { seq(n, _ => false) }

  function Segment(payload: seq<Byte>, version: nat): (bits: seq<bool>)
    ensures |bits| == 4 + CountBits(version) + 8 * |payload|
  {
    BitsOf(4, 4) + BitsOf(|payload|, CountBits(version)) + Flatten(payload)
  }

  /** Terminator of at most four zeros, then zeros up to a byte boundary. */
  function Terminated(bits: seq<bool>, capacityBits: nat): (r: seq<bool>)
    requires |bits| <= capacityBits && capacityBits % 8 == 0
    ensures |r| % 8 == 0 && |bits| <= |r| <= capacityBits && r[..|bits|] == bits
  {
    var t := if capacityBits - |bits| < 4 then capacityBits - |bits| else 4;
    var u := bits + Zeros(t);
    u + Zeros((8 - |u| % 8) % 8)
  }

  function Pad(i: nat): Byte {
    if i % 2 == 0 then Byte(true, true, true, false, true, true, false, false)
    else Byte(false, false, false, true, false, false, false, true)
  }

  function Padded(head: seq<Byte>, total: nat): (r: seq<Byte>)
    requires |head| <= total
    ensures |r| == total && r[..|head|] == head
  {
    head + seq(total - |head|, i requires 0 <= i => Pad(i))
  }

  /** The segment as codewords, before padding. */
  function HeadCodewords(payload: seq<Byte>, version: nat, total: nat): (r: seq<Byte>)
    requires |Segment(payload, version)| <= total * 8
    ensures |r| <= total
  {
    Chunks(Terminated(Segment(payload, version), total * 8))
  }

  function DataCodewords(payload: seq<Byte>, version: nat): (r: seq<Byte>)
    requires 1 <= version <= 10 && |payload| <= Capacity(version)
    ensures |r| == DataTotal(version)
  {
    SegmentFits(payload, version);
    Padded(HeadCodewords(payload, version, DataTotal(version)), DataTotal(version))
  }

  lemma SegmentFits(payload: seq<Byte>, version: nat)
    requires 1 <= version <= 10 && |payload| <= Capacity(version)
    ensures |Segment(payload, version)| <= DataTotal(version) * 8
  {
    hide DataTotal, Segment;
    EighthBound(|payload|, DataTotal(version) * 8 - 4 - CountBits(version));
  }

  lemma EighthBound(p: nat, q: int)
    requires p <= q / 8
    ensures 8 * p <= q
  {
  }

  datatype Result<+T> = Ok(value: T) | Err(reason: Failure)

  datatype Failure =
    | PayloadTooLong | PlacementLeftOver | NotAMatrix | UnsupportedVersion | BadFormat | UnexpectedLevel
    | BlockFails | NotByteMode | Truncated

  /** Reads the segment back from the data codewords of all blocks in order. */
  function Parse(stream: seq<Byte>, version: nat): Result<seq<Byte>>
    requires |stream| >= 16
  {
    ParseBits(Flatten(stream), version)
  }

  function ParseBits(bits: seq<bool>, version: nat): Result<seq<Byte>>
    requires |bits| >= 20
  {
    var start := 4 + CountBits(version);
    if Value(bits[..4]) != 4 then Err(NotByteMode)
    else
      var end := start + 8 * Value(bits[4..start]);
      if end > |bits| then Err(Truncated) else Ok(Chunks(bits[start..end]))
  }

  lemma CapacityBound(payload: seq<Byte>, version: nat)
    requires 1 <= version <= 10 && |payload| <= Capacity(version)
    ensures |payload| < Pow2(CountBits(version))
  {
    hide DataTotal;
    assert Pow2(4) == 16;
    assert Pow2(8) == 256;
  }

  lemma FlattenKeepsSegment(seg: seq<bool>, capacityBits: nat, pads: seq<Byte>)
    requires |seg| <= capacityBits && capacityBits % 8 == 0
    ensures var bits := Flatten(Chunks(Terminated(seg, capacityBits)) + pads);
            |bits| >= |seg| && bits[..|seg|] == seg
  {
    hide Flatten, Chunks, Terminated;
    var term := Terminated(seg, capacityBits);
    FlattenChunks(term);
    FlattenConcat(Chunks(term), pads);
  }

  lemma SamePart(bits: seq<bool>, seg: seq<bool>, a: nat, b: nat)
    requires a <= b <= |seg| <= |bits| && bits[..|seg|] == seg
    ensures bits[a..b] == seg[a..b]
  {
    var x, y := bits[a..b], seg[a..b];
    forall i | 0 <= i < |x| ensures x[i] == y[i] {
      assert x[i] == bits[a + i] == bits[..|seg|][a + i];
    }
    assert x == y;
  }

  lemma ParseSegment(stream: seq<Byte>, payload: seq<Byte>, version: nat)
    requires |stream| >= 16 && |payload| < Pow2(CountBits(version))
    requires var seg := Segment(payload, version); |Flatten(stream)| >= |seg| && Flatten(stream)[..|seg|] == seg
    ensures Parse(stream, version) == Ok(payload)
  {
    hide Flatten, Chunks, BitsOf, Value, Pow2, CountBits;
    var bits, seg, cb := Flatten(stream), Segment(payload, version), CountBits(version);
    var mode, count, body := BitsOf(4, 4), BitsOf(|payload|, cb), Flatten(payload);
    assert seg[..4] == mode && seg[4..4 + cb] == count && seg[4 + cb..] == body;
    SamePart(bits, seg, 0, 4);
    SamePart(bits, seg, 4, 4 + cb);
    SamePart(bits, seg, 4 + cb, |seg|);
    ModeBits();
    ValueOfBits(|payload|, cb);
    ChunksFlatten(payload);
  }

  lemma ModeBits()
    ensures Value(BitsOf(4, 4)) == 4
  {
    assert Pow2(4) == 16;
    ValueOfBits(4, 4);
  }

  lemma HeadOfData(payload: seq<Byte>, version: nat, total: nat)
    requires 1 <= version <= 10 && |payload| <= Capacity(version) && total == DataTotal(version)
    ensures |Segment(payload, version)| <= total * 8 && |DataCodewords(payload, version)| == total >= 16
    ensures HeadCodewords(payload, version, total) == DataCodewords(payload, version)[..|HeadCodewords(payload, version, total)|]
  {
    hide DataTotal, Pad, HeadCodewords, Segment, Padded, Capacity;
    SegmentFits(payload, version);
  }

  lemma HeadKeepsSegment(payload: seq<Byte>, version: nat, total: nat, pads: seq<Byte>)
    requires |Segment(payload, version)| <= total * 8
    ensures var seg, bits := Segment(payload, version), Flatten(HeadCodewords(payload, version, total) + pads);
            |bits| >= |seg| && bits[..|seg|] == seg
  {
    hide Flatten, Chunks, Terminated, Segment;
    FlattenKeepsSegment(Segment(payload, version), total * 8, pads);
  }

  /** The segment survives termination, padding and chunking. */
  lemma ParseDataCodewords(payload: seq<Byte>, version: nat)
    requires 1 <= version <= 10 && |payload| <= Capacity(version)
    ensures Parse(DataCodewords(payload, version), version) == Ok(payload)
  {
    hide *;
    CapacityBound(payload, version);
    var total, stream := DataTotal(version), DataCodewords(payload, version);
    HeadOfData(payload, version, total);
    var head := HeadCodewords(payload, version, total);
    HeadKeepsSegment(payload, version, total, stream[|head|..]);
    assert stream == head + stream[|head|..];
    ParseSegment(stream, payload, version);
  }

  // ---- interleaving --------------------------------------------------------------------------

  /** Blocks long enough to have an element in row i. */
  function CountAbove(sizes: seq<nat>, i: nat): nat {
    if sizes == [] then 0 else CountAbove(sizes[..|sizes| - 1], i) + (if i < sizes[|sizes| - 1] then 1 else 0)
  }

  /** Elements in the first i rows. */
  function RowsBefore(sizes: seq<nat>, i: nat): nat {
    if i == 0 then 0 else RowsBefore(sizes, i - 1) + CountAbove(sizes, i - 1)
  }

  /** Where element i of block k lands. */
  function Offset(sizes: seq<nat>, i: nat, k: nat): nat
    requires k <= |sizes|
  {
    RowsBefore(sizes, i) + CountAbove(sizes[..k], i)
  }

  function Max(sizes: seq<nat>): (m: nat)
    requires |sizes| > 0
    ensures forall k :: 0 <= k < |sizes| ==> sizes[k] <= m
    ensures exists k :: 0 <= k < |sizes| && sizes[k] == m
  {
    if |sizes| == 1 then sizes[0]
    else
      var m := Max(sizes[..|sizes| - 1]);
      if m < sizes[|sizes| - 1] then sizes[|sizes| - 1] else m
  }

  function Sizes(blocks: seq<seq<Byte>>): (s: seq<nat>)
    ensures |s| == |blocks|
  {
    seq(|blocks|, k requires 0 <= k < |blocks| => |blocks[k]|)
  }

  function Row(blocks: seq<seq<Byte>>, i: nat): seq<Byte> {
    if blocks == [] then []
    else
      var n := |blocks| - 1;
      Row(blocks[..n], i) + (if i < |blocks[n]| then [blocks[n][i]] else [])
  }

  /** The first `rows` rows, row by row. */
  function Interleaved(blocks: seq<seq<Byte>>, rows: nat): seq<Byte> {
    if rows == 0 then [] else Interleaved(blocks, rows - 1) + Row(blocks, rows - 1)
  }

  function Interleave(blocks: seq<seq<Byte>>): seq<Byte>
    requires |blocks| > 0
  {
    Interleaved(blocks, Max(Sizes(blocks)))
  }

  lemma {:induction false} RowShape(blocks: seq<seq<Byte>>, i: nat, k: nat)
    requires k <= |blocks|
    ensures |Row(blocks, i)| == CountAbove(Sizes(blocks), i)
    ensures CountAbove(Sizes(blocks)[..k], i) <= CountAbove(Sizes(blocks), i)
    ensures k < |blocks| && i < |blocks[k]| ==>
              CountAbove(Sizes(blocks)[..k], i) < |Row(blocks, i)|
              && Row(blocks, i)[CountAbove(Sizes(blocks)[..k], i)] == blocks[k][i]
  {
    if blocks != [] {
      var n := |blocks| - 1;
      assert Sizes(blocks)[..n] == Sizes(blocks[..n]);
      if k <= n {
        RowShape(blocks[..n], i, k);
        assert Sizes(blocks[..n])[..k] == Sizes(blocks)[..k];
      } else {
        RowShape(blocks[..n], i, n);
        assert Sizes(blocks)[..k] == Sizes(blocks);
      }
    }
  }

  lemma {:induction false} InterleavedAt(blocks: seq<seq<Byte>>, rows: nat, i: nat, k: nat)
    requires k < |blocks| && i < rows && i < |blocks[k]|
    ensures |Interleaved(blocks, rows)| == RowsBefore(Sizes(blocks), rows)
    ensures Offset(Sizes(blocks), i, k) < RowsBefore(Sizes(blocks), rows)
    ensures Interleaved(blocks, rows)[Offset(Sizes(blocks), i, k)] == blocks[k][i]
  {
    hide Row, CountAbove;
    InterleavedLength(blocks, rows - 1);
    RowShape(blocks, rows - 1, k);
    if i < rows - 1 {
      InterleavedAt(blocks, rows - 1, i, k);
    }
  }

  lemma {:induction false} InterleavedLength(blocks: seq<seq<Byte>>, rows: nat)
    ensures |Interleaved(blocks, rows)| == RowsBefore(Sizes(blocks), rows)
  {
    hide Row, CountAbove;
    if rows > 0 {
      InterleavedLength(blocks, rows - 1);
      RowShape(blocks, rows - 1, 0);
    }
  }

  function Clip(sizes: seq<nat>, m: nat): seq<nat> {
    seq(|sizes|, k requires 0 <= k < |sizes| => if sizes[k] < m then sizes[k] else m)
  }

  lemma {:induction false} ClipStep(sizes: seq<nat>, m: nat)
    ensures Sum(Clip(sizes, m + 1)) == Sum(Clip(sizes, m)) + CountAbove(sizes, m)
  {
    if sizes != [] {
      var n := |sizes| - 1;
      ClipStep(sizes[..n], m);
      assert Clip(sizes, m + 1)[..n] == Clip(sizes[..n], m + 1) && Clip(sizes, m)[..n] == Clip(sizes[..n], m);
    }
  }

  lemma {:induction false} ClipZero(sizes: seq<nat>)
    ensures Sum(Clip(sizes, 0)) == 0
  {
    if sizes != [] {
      ClipZero(sizes[..|sizes| - 1]);
      assert Clip(sizes, 0)[..|sizes| - 1] == Clip(sizes[..|sizes| - 1], 0);
    }
  }

  lemma {:induction false} RowsAreClip(sizes: seq<nat>, m: nat)
    ensures RowsBefore(sizes, m) == Sum(Clip(sizes, m))
  {
    hide Clip, Sum, CountAbove;
    if m == 0 {
      ClipZero(sizes);
    } else {
      RowsAreClip(sizes, m - 1);
      ClipStep(sizes, m - 1);
    }
  }

  /** All rows together hold every element once. */
  lemma RowsTotal(sizes: seq<nat>)
    requires |sizes| > 0
    ensures RowsBefore(sizes, Max(sizes)) == Sum(sizes)
  {
    hide Max, Sum;
    RowsAreClip(sizes, Max(sizes));
    assert Clip(sizes, Max(sizes)) == sizes;
  }

  lemma InterleaveLength(blocks: seq<seq<Byte>>)
    requires |blocks| > 0
    ensures |Interleave(blocks)| == Sum(Sizes(blocks))
  {
    hide Interleaved, RowsBefore, Sum, Max;
    InterleavedLength(blocks, Max(Sizes(blocks)));
    RowsTotal(Sizes(blocks));
  }

  /** Inverse of `Interleave` for known block sizes. */
  function Deinterleave(codewords: seq<Byte>, sizes: seq<nat>): (blocks: seq<seq<Byte>>)
    requires |sizes| > 0 && |codewords| >= Sum(sizes)
    ensures |blocks| == |sizes| && forall k :: 0 <= k < |sizes| ==> |blocks[k]| == sizes[k]
  {
    seq(|sizes|, k requires 0 <= k < |sizes| =>
      seq(sizes[k], i requires 0 <= i < sizes[k] =>
        OffsetBound(sizes, i, k); codewords[Offset(sizes, i, k)]))
  }

  lemma OffsetBound(sizes: seq<nat>, i: nat, k: nat)
    requires k < |sizes| && i < sizes[k]
    ensures Offset(sizes, i, k) < Sum(sizes)
  {
    hide CountAbove, Max, Sum, RowsBefore;
    RowsTotal(sizes);
    RowsGrow(sizes, i + 1, Max(sizes));
    CountSplit(sizes, i, k);
    RowsNext(sizes, i);
  }

  lemma RowsNext(sizes: seq<nat>, i: nat)
    ensures RowsBefore(sizes, i + 1) == RowsBefore(sizes, i) + CountAbove(sizes, i)
  {
  }

  lemma {:induction false} RowsGrow(sizes: seq<nat>, a: nat, b: nat)
    requires a <= b
    ensures RowsBefore(sizes, a) <= RowsBefore(sizes, b)
  {
    if a < b {
      RowsGrow(sizes, a, b - 1);
    }
  }

  lemma {:induction false} CountSplit(sizes: seq<nat>, i: nat, k: nat)
    requires k < |sizes|
    ensures CountAbove(sizes[..k], i) + (if i < sizes[k] then 1 else 0) <= CountAbove(sizes, i)
  {
    var n := |sizes| - 1;
    if k < n {
      CountSplit(sizes[..n], i, k);
      assert sizes[..n][..k] == sizes[..k];
    }
  }

  /** De-interleaving undoes interleaving, whatever follows the data. */
  lemma DeinterleaveInterleave(blocks: seq<seq<Byte>>, rest: seq<Byte>)
    requires |blocks| > 0
    ensures |Interleave(blocks) + rest| >= Sum(Sizes(blocks))
    ensures Deinterleave(Interleave(blocks) + rest, Sizes(blocks)) == blocks
  {
    hide Interleaved, RowsBefore, Sum, Offset, Max;
    InterleaveLength(blocks);
    var sizes := Sizes(blocks);
    var d := Deinterleave(Interleave(blocks) + rest, sizes);
    forall k | 0 <= k < |blocks|
      ensures d[k] == blocks[k]
    {
      forall i | 0 <= i < |blocks[k]|
        ensures d[k][i] == blocks[k][i]
      {
        OffsetBound(sizes, i, k);
        InterleavedAt(blocks, Max(sizes), i, k);
      }
    }
  }

  // ---- blocks --------------------------------------------------------------------------------

  /** Consecutive slices of the given sizes. */
  function Split(data: seq<Byte>, sizes: seq<nat>): (blocks: seq<seq<Byte>>)
    requires Sum(sizes) <= |data|
    ensures |blocks| == |sizes| && forall k :: 0 <= k < |sizes| ==> |blocks[k]| == sizes[k]
  {
    if sizes == [] then []
    else
      var n := |sizes| - 1;
      Split(data, sizes[..n]) + [data[Sum(sizes[..n])..Sum(sizes)]]
  }

  function Join(blocks: seq<seq<Byte>>): seq<Byte> {
    if blocks == [] then [] else Join(blocks[..|blocks| - 1]) + blocks[|blocks| - 1]
  }

  lemma {:induction false} JoinSplit(data: seq<Byte>, sizes: seq<nat>)
    requires Sum(sizes) <= |data|
    ensures Join(Split(data, sizes)) == data[..Sum(sizes)]
  {
    if sizes != [] {
      var n := |sizes| - 1;
      JoinSplit(data, sizes[..n]);
      assert Split(data, sizes)[..n] == Split(data, sizes[..n]);
    }
  }

  lemma {:induction false} JoinLength(blocks: seq<seq<Byte>>)
    ensures |Join(blocks)| == Sum(Sizes(blocks))
  {
    if blocks != [] {
      JoinLength(blocks[..|blocks| - 1]);
      assert Sizes(blocks)[..|blocks| - 1] == Sizes(blocks[..|blocks| - 1]);
    }
  }

  function CheckBlocks(blocks: seq<seq<Byte>>, ecLen: nat): (ec: seq<seq<Byte>>)
    requires ecLen > 0
    ensures |ec| == |blocks| && forall k :: 0 <= k < |blocks| ==> |ec[k]| == ecLen && ec[k] == Remainder(blocks[k], ecLen)
  {
    seq(|blocks|, k requires 0 <= k < |blocks| => Remainder(blocks[k], ecLen))
  }

  /** What goes on the symbol: interleaved data, then interleaved check bytes. */
  function SymbolCodewords(payload: seq<Byte>, version: nat): seq<Byte>
    requires 1 <= version <= 10 && |payload| <= Capacity(version)
  {
    BlocksFacts(version);
    var b := BlocksM(version);
    var blocks := Split(DataCodewords(payload, version), b.sizes);
    Interleave(blocks) + Interleave(CheckBlocks(blocks, b.ecLen))
  }

  function Repeat(value: nat, count: nat): (s: seq<nat>)
    ensures |s| == count && forall k :: 0 <= k < count ==> s[k] == value
  {
    if count == 0 then [] else Repeat(value, count - 1) + [value]
  }

  lemma {:induction false} SumRepeat(value: nat, count: nat)
    ensures Sum(Repeat(value, count)) == value * count
  {
    if count > 0 {
      SumRepeat(value, count - 1);
      assert Repeat(value, count)[..count - 1] == Repeat(value, count - 1);
    }
  }

  /** De-interleaves, checks every block, and reads the payload from the data blocks in order. */
  ghost function DecodeCodewords(codewords: seq<Byte>, version: nat): Result<seq<Byte>>
    requires 1 <= version <= 10 && |codewords| == BlocksM(version).total
  {
    var blocks := DataBlocks(codewords, version);
    var ec := EcBlocks(codewords, version);
    DataBlocksFacts(codewords, version);
    if exists k :: 0 <= k < |blocks| && !Codeword(blocks[k] + ec[k], BlocksM(version).ecLen) then Err(BlockFails)
    else Parse(Join(blocks), version)
  }

  function DataBlocks(codewords: seq<Byte>, version: nat): (blocks: seq<seq<Byte>>)
    requires 1 <= version <= 10 && |codewords| == BlocksM(version).total
    ensures |blocks| == |BlocksM(version).sizes|
  {
    BlocksFacts(version);
    Deinterleave(codewords, BlocksM(version).sizes)
  }

  function EcBlocks(codewords: seq<Byte>, version: nat): (blocks: seq<seq<Byte>>)
    requires 1 <= version <= 10 && |codewords| == BlocksM(version).total
    ensures |blocks| == |BlocksM(version).sizes|
    ensures forall k :: 0 <= k < |blocks| ==> |blocks[k]| == BlocksM(version).ecLen
  {
    BlocksFacts(version);
    var b := BlocksM(version);
    SumRepeat(b.ecLen, |b.sizes|);
    Deinterleave(codewords[Sum(b.sizes)..], Repeat(b.ecLen, |b.sizes|))
  }

  lemma DataBlocksFacts(codewords: seq<Byte>, version: nat)
    requires 1 <= version <= 10 && |codewords| == BlocksM(version).total
    ensures |Join(DataBlocks(codewords, version))| >= 16
    ensures Sizes(DataBlocks(codewords, version)) == BlocksM(version).sizes
  {
    hide Join, Sum, BlocksM;
    BlocksFacts(version);
    var blocks := DataBlocks(codewords, version);
    JoinLength(blocks);
    assert Sizes(blocks) == BlocksM(version).sizes;
  }

  lemma SymbolLength(payload: seq<Byte>, version: nat)
    requires 1 <= version <= 10 && |payload| <= Capacity(version)
    ensures |SymbolCodewords(payload, version)| == BlocksM(version).total
  {
    hide Join, Sum, BlocksM, Interleave, DataCodewords, Remainder;
    BlocksFacts(version);
    var b := BlocksM(version);
    var blocks := Split(DataCodewords(payload, version), b.sizes);
    var ec := CheckBlocks(blocks, b.ecLen);
    InterleaveLength(blocks);
    InterleaveLength(ec);
    assert Sizes(blocks) == b.sizes;
    assert Sizes(ec) == Repeat(b.ecLen, |b.sizes|);
    SumRepeat(b.ecLen, |b.sizes|);
  }

  lemma CodewordErrors(codewords: seq<Byte>, version: nat)
    requires 1 <= version <= 10 && |codewords| == BlocksM(version).total
    ensures DecodeCodewords(codewords, version) != Err(PlacementLeftOver)
  {
    hide Join, BlocksM, Codeword, DataBlocks, EcBlocks, Flatten, Chunks, BitString.Value;
    DataBlocksFacts(codewords, version);
  }

  /** The codewords written for a payload are accepted and give the payload back. */
  lemma DecodeSymbolCodewords(payload: seq<Byte>, version: nat)
    requires 1 <= version <= 10 && |payload| <= Capacity(version)
    ensures |SymbolCodewords(payload, version)| == BlocksM(version).total
    ensures DecodeCodewords(SymbolCodewords(payload, version), version) == Ok(payload)
  {
    hide Join, Sum, BlocksM, Interleave, Deinterleave, DataCodewords, Remainder, Codeword, Parse, Split;
    BlocksFacts(version);
    var b := BlocksM(version);
    var data := DataCodewords(payload, version);
    var blocks := Split(data, b.sizes);
    var ec := CheckBlocks(blocks, b.ecLen);
    var cw := SymbolCodewords(payload, version);
    SymbolLength(payload, version);
    assert Sizes(blocks) == b.sizes;
    DeinterleaveInterleave(blocks, Interleave(ec));
    InterleaveLength(blocks);
    assert Sizes(ec) == Repeat(b.ecLen, |b.sizes|);
    DeinterleaveInterleave(ec, []);
    assert cw[Sum(b.sizes)..] == Interleave(ec) + [];
    assert DataBlocks(cw, version) == blocks && EcBlocks(cw, version) == ec;
    forall k | 0 <= k < |blocks|
      ensures Codeword(blocks[k] + ec[k], b.ecLen)
    {
      RemainderCodeword(blocks[k], b.ecLen);
    }
    JoinSplit(data, b.sizes);
    assert data[..Sum(b.sizes)] == data;
    ParseDataCodewords(payload, version);
  }
}
