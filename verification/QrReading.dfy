/** What it means that a matrix was decoded: which matrices are, and to what. */
module QrReading {
  import BitString
  import opened Gf256
  import opened QrCapacity
  import opened QrCode
  import opened QrCodec
  import opened QrStream
  import opened QrSymbol
  import opened ReedSolomon
  import opened Wrappers

  // ---- the stream ----------------------------------------------------------------------------

  /** Bits of a fixed number are the number's. */
  lemma BitsOfValue(bits: seq<bool>)
    ensures BitString.BitsOf(BitString.Value(bits), |bits|) == bits
  {
    BitString.ValueBound(bits);
    BitString.ValueOfBits(BitString.Value(bits), |bits|);
    BitString.ValueInjective(bits, BitString.BitsOf(BitString.Value(bits), |bits|));
  }

  lemma ModeValue(bits: seq<bool>)
    requires |bits| == 4
    ensures BitString.Value(bits) == 4 <==> bits == BitString.BitsOf(4, 4)
  {
    assert BitString.Pow2(4) == 16;
    BitString.ValueOfBits(4, 4);
    BitsOfValue(bits);
  }

  predicate Starts(bits: seq<bool>, head: seq<bool>) { |head| <= |bits| && bits[..|head|] == head }

  /** Writer and reader are exact inverses: a stream is read as a payload if and only if it starts with that payload's segment. */
  lemma ParseIff(stream: seq<Byte>, version: nat, payload: seq<Byte>)
    requires |stream| >= 16
    ensures Parse(stream, version) == Ok(payload)
       <==> |payload| < BitString.Pow2(CountBits(version)) && Starts(Flatten(stream), Segment(payload, version))
  {
    if Parse(stream, version) == Ok(payload) {
      ParsedStarts(stream, version, payload);
    } else if |payload| < BitString.Pow2(CountBits(version)) && Starts(Flatten(stream), Segment(payload, version)) {
      StartsParsed(stream, version, payload);
    }
  }

  lemma ThreePieces(bits: seq<bool>, i: nat, j: nat, k: nat)
    requires i <= j <= k <= |bits|
    ensures Starts(bits, bits[..i] + bits[i..j] + bits[j..k])
  {
    assert bits[..k] == bits[..i] + bits[i..j] + bits[j..k];
  }

  lemma PiecesOf(bits: seq<bool>, a: seq<bool>, b: seq<bool>, c: seq<bool>)
    requires Starts(bits, a + b + c)
    ensures |a| + |b| + |c| <= |bits|
    ensures bits[..|a|] == a && bits[|a|..|a| + |b|] == b && bits[|a| + |b|..|a| + |b| + |c|] == c
  {
    var head := a + b + c;
    assert head[..|a|] == a && head[|a|..|a| + |b|] == b && head[|a| + |b|..] == c;
    assert bits[..|a|] == bits[..|head|][..|a|];
    assert bits[|a|..|a| + |b|] == bits[..|head|][|a|..|a| + |b|];
    assert bits[|a| + |b|..|head|] == bits[..|head|][|a| + |b|..];
  }

  /** The pieces a reader takes are those a writer lays down. */
  lemma PiecesMean(mode: seq<bool>, count: seq<bool>, body: seq<bool>, version: nat)
    requires |mode| == 4 && |count| == CountBits(version) && BitString.Value(mode) == 4 && |body| == 8 * BitString.Value(count)
    ensures |Chunks(body)| < BitString.Pow2(CountBits(version)) && mode + count + body == Segment(Chunks(body), version)
  {
    hide Flatten, Chunks, Segment, CountBits, BitString.Value, BitString.BitsOf, BitString.Pow2;
    ModeValue(mode);
    BitsOfValue(count);
    BitString.ValueBound(count);
    FlattenChunks(body);
    SegmentIs(Chunks(body), version);
  }

  lemma SegmentIs(payload: seq<Byte>, version: nat)
    ensures Segment(payload, version)
         == BitString.BitsOf(4, 4) + BitString.BitsOf(|payload|, CountBits(version)) + Flatten(payload)
  {
    hide Flatten, CountBits, BitString.BitsOf;
  }

  lemma ParsedStarts(stream: seq<Byte>, version: nat, payload: seq<Byte>)
    requires |stream| >= 16 && Parse(stream, version) == Ok(payload)
    ensures |payload| < BitString.Pow2(CountBits(version)) && Starts(Flatten(stream), Segment(payload, version))
  {
    hide ParseBits, Flatten, Starts, Segment, BitString.Pow2;
    BitsStart(Flatten(stream), version, payload);
  }

  lemma BitsStart(bits: seq<bool>, version: nat, payload: seq<Byte>)
    requires |bits| >= 20 && ParseBits(bits, version) == Ok(payload)
    ensures |payload| < BitString.Pow2(CountBits(version)) && Starts(bits, Segment(payload, version))
  {
    hide Chunks, Starts, Segment, BitString.Value, BitString.Pow2;
    var start := 4 + CountBits(version);
    var end := start + 8 * BitString.Value(bits[4..start]);
    PiecesMean(bits[..4], bits[4..start], bits[start..end], version);
    ThreePieces(bits, 4, start, end);
  }

  lemma ParseOf(bits: seq<bool>, mode: seq<bool>, count: seq<bool>, body: seq<bool>, version: nat)
    requires |bits| >= 20 && |mode| == 4 && |count| == CountBits(version)
    requires BitString.Value(mode) == 4 && |body| == 8 * BitString.Value(count) && Starts(bits, mode + count + body)
    ensures ParseBits(bits, version) == Ok(Chunks(body))
  {
    hide ParseBits, Chunks, Starts, BitString.Value;
    PiecesOf(bits, mode, count, body);
    ParseCut(bits, version, BitString.Value(count));
  }

  lemma ParseCut(bits: seq<bool>, version: nat, n: nat)
    requires |bits| >= 20 && BitString.Value(bits[..4]) == 4
    requires BitString.Value(bits[4..4 + CountBits(version)]) == n && 4 + CountBits(version) + 8 * n <= |bits|
    ensures ParseBits(bits, version) == Ok(Chunks(bits[4 + CountBits(version)..4 + CountBits(version) + 8 * n]))
  {
    hide Chunks, BitString.Value;
  }

  lemma StartsParsed(stream: seq<Byte>, version: nat, payload: seq<Byte>)
    requires |stream| >= 16
    requires |payload| < BitString.Pow2(CountBits(version)) && Starts(Flatten(stream), Segment(payload, version))
    ensures Parse(stream, version) == Ok(payload)
  {
    hide ParseBits, Flatten, Chunks, Starts, BitString.Value, BitString.BitsOf, BitString.Pow2;
    ModeValue(BitString.BitsOf(4, 4));
    BitString.ValueOfBits(|payload|, CountBits(version));
    ChunksFlatten(payload);
    ParseOf(Flatten(stream), BitString.BitsOf(4, 4), BitString.BitsOf(|payload|, CountBits(version)), Flatten(payload), version);
  }

  // ---- the format word -----------------------------------------------------------------------

  /** The word read is the first copy's, or the second's if the first is no format word; there is none only if neither is. */
  lemma FormatChoice(m: Matrix, n: nat)
    requires IsSquare(m, n)
    ensures var first, second := Unmask(CopyWord(m, n, false)), Unmask(CopyWord(m, n, true));
      && (FormatInfo(m, n) == Some(first) || first != FormatWord(first[10..]))
      && (first != FormatWord(first[10..]) && second == FormatWord(second[10..]) ==> FormatInfo(m, n) == Some(second))
      && (first != FormatWord(first[10..]) && second != FormatWord(second[10..]) ==> FormatInfo(m, n).None?)
  {
    hide FormatWord, FormatAccepted, Unmask, CopyWord;
    FormatAcceptedIff(Unmask(CopyWord(m, n, false)));
    FormatAcceptedIff(Unmask(CopyWord(m, n, true)));
  }

  lemma LevelM(info: seq<bool>)
    requires |info| == 15 && FormatAccepted(info) && !info[13] && !info[14]
    ensures MaskOf(info) < 8 && info == FormatWord(MaskData(MaskOf(info)))
  {
    hide FormatAccepted, FormatWord;
    FormatAcceptedIff(info);
    assert info[10..] == [info[10], info[11], info[12], false, false];
    Triple(info[10], info[11], info[12]);
  }

  lemma Triple(a: bool, b: bool, c: bool)
    ensures var mask := BitString.Bit(a) + 2 * BitString.Bit(b) + 4 * BitString.Bit(c);
      mask < 8 && MaskData(mask) == [a, b, c, false, false]
  {
  }

  /** A matrix has a word of level M and that mask. */
  predicate HasMask(m: Matrix, version: nat, mask: nat)
    requires 1 <= version <= 10 && IsSquare(m, Size(version))
  {
    mask < 8 && FormatInfo(m, Size(version)) == Some(FormatWord(MaskData(mask)))
  }

  lemma FormatFound(m: Matrix, n: nat)
    requires IsSquare(m, n)
    ensures FormatInfo(m, n).Some? ==> FormatAccepted(FormatInfo(m, n).value)
  {
    hide FormatAccepted, Unmask, CopyWord;
  }

  // ---- the matrix ----------------------------------------------------------------------------

  /** The codewords along the path. */
  function Codewords(m: Matrix, version: nat, mask: nat): (c: seq<Byte>)
    requires 1 <= version <= 10 && IsSquare(m, Size(version))
    ensures |c| == BlocksM(version).total
  {
    DataPathSuffices(version);
    TakeCodewords(PathBits(m, version, mask), BlocksM(version).total)
  }

  /** All blocks are sound, and their data start with the payload's segment. */
  ghost predicate Carries(codewords: seq<Byte>, version: nat, payload: seq<Byte>)
    requires 1 <= version <= 10 && |codewords| == BlocksM(version).total
  {
    && (forall k :: 0 <= k < |BlocksM(version).sizes| ==>
          Codeword(DataBlocks(codewords, version)[k] + EcBlocks(codewords, version)[k], BlocksM(version).ecLen))
    && |payload| < BitString.Pow2(CountBits(version))
    && Starts(Flatten(Join(DataBlocks(codewords, version))), Segment(payload, version))
  }

  lemma CarriesIff(codewords: seq<Byte>, version: nat, payload: seq<Byte>)
    requires 1 <= version <= 10 && |codewords| == BlocksM(version).total
    ensures DecodeCodewords(codewords, version) == Ok(payload) <==> Carries(codewords, version, payload)
  {
    hide Parse, Codeword, BlocksM, Join, DataBlocks, EcBlocks, Segment, Starts, BitString.Pow2, Flatten;
    DataBlocksFacts(codewords, version);
    ParseIff(Join(DataBlocks(codewords, version)), version, payload);
  }

  /** A square of one of the ten sizes, with a word of level M for the mask, whose codewords carry the payload. */
  ghost predicate Shows(m: Matrix, d: Decoded) {
    && 1 <= d.version <= 10 && IsSquare(m, Size(d.version)) && HasMask(m, d.version, d.mask)
    && Carries(Codewords(m, d.version, d.mask), d.version, d.payload)
  }

  lemma SquareShows(m: Matrix, version: nat, d: Decoded)
    requires 1 <= version <= 10 && IsSquare(m, Size(version))
    ensures DecodeSquare(m, version) == Ok(d) <==> d.version == version && Shows(m, d)
  {
    hide FormatInfo, FormatWord, FormatAccepted, Carries, DecodeCodewords, PathBits, TakeCodewords, BlocksM, DataPath, MaskOf, MaskData;
    DataPathSuffices(version);
    FormatFound(m, Size(version));
    var info := FormatInfo(m, Size(version));
    if info.Some? && !info.value[13] && !info.value[14] {
      var mask := MaskOf(info.value);
      LevelM(info.value);
      CarriesIff(Codewords(m, version, mask), version, d.payload);
      if d.mask < 8 && info == Some(FormatWord(MaskData(d.mask))) { MaskOfWord(d.mask); }
    } else if d.mask < 8 && info == Some(FormatWord(MaskData(d.mask))) {
      MaskOfWord(d.mask);
    }
  }

  lemma SizeDecides(m: Matrix, version: nat)
    requires IsSquare(m, Size(version))
    ensures Rectangular(m) && |m| == |m[0]| == Size(version) && (|m| - 17) % 4 == 0 && (|m| - 17) / 4 == version
  {
  }

  /** Main result: decoding is exact. A matrix is decoded to a payload, version and mask if and only if it shows them. */
  lemma DecodesIff(m: Matrix, d: Decoded)
    requires Rectangular(m)
    ensures Decode(m) == Ok(d) <==> Shows(m, d)
  {
    hide DecodeSquare, HasMask, Carries, BlocksM;
    if Shows(m, d) { SizeDecides(m, d.version); }
    var n := |m|;
    if n == |m[0]| && (n - 17) % 4 == 0 && 1 <= (n - 17) / 4 <= 10 {
      var version := (n - 17) / 4;
      assert Size(version) == n;
      SquareShows(m, version, d);
    }
  }

  // ---- a damaged format copy -----------------------------------------------------------------

  /** No module of the data path lies in a format area. */
  lemma PathSpared(m: Matrix, k: Matrix, version: nat, mask: nat)
    requires 1 <= version <= 10 && IsSquare(m, Size(version)) && IsSquare(k, Size(version))
    requires forall x, y :: In(Size(version), x, y) && !IsFormat(Size(version), x, y) ==>
      At(k, Size(version), x, y) == At(m, Size(version), x, y)
    ensures PathBits(k, version, mask) == PathBits(m, version, mask)
  {
    hide DataPath, IsFormat, IsFinder, IsAlignment, IsTiming, InvertsAt;
    DataPathFacts(version);
    forall i | 0 <= i < |DataPath(version)|
      ensures AtPos(k, Size(version), DataPath(version)[i]) == AtPos(m, Size(version), DataPath(version)[i])
    {
      var p := DataPath(version)[i];
      assert In(Size(version), p.x, p.y) && Free(version, p);
      assert At(k, Size(version), p.x, p.y) == At(m, Size(version), p.x, p.y);
    }
  }

  /** Either copy of the format word is enough: a symbol in whose first copy anything was changed so that it is no format word
      any more is decoded as before. */
  lemma SecondCopySuffices(m: Matrix, version: nat, mask: nat, codewords: seq<Byte>, k: Matrix)
    requires Symbol(m, version, mask, codewords) && |codewords| == BlocksM(version).total && IsSquare(k, Size(version))
    requires forall x, y :: In(Size(version), x, y) && !IsFormat(Size(version), x, y) ==>
      At(k, Size(version), x, y) == At(m, Size(version), x, y)
    requires CopyWord(k, Size(version), true) == CopyWord(m, Size(version), true)
    requires !FormatAccepted(Unmask(CopyWord(k, Size(version), false)))
    ensures Rectangular(m) && Rectangular(k) && Decode(k) == Decode(m)
  {
    hide Symbol, FormatAccepted, FormatWord, CopyWord, Unmask, DecodeMasked, BlocksM;
    SymbolSecond(m, version, mask, codewords);
    SizeDecides(m, version);
    SizeDecides(k, version);
    FormatOfSymbol(m, version, mask, codewords);
    MaskedSame(m, k, version, mask);
    MaskOfWord(mask);
  }

  lemma MaskedSame(m: Matrix, k: Matrix, version: nat, mask: nat)
    requires 1 <= version <= 10 && IsSquare(m, Size(version)) && IsSquare(k, Size(version))
    requires forall x, y :: In(Size(version), x, y) && !IsFormat(Size(version), x, y) ==>
      At(k, Size(version), x, y) == At(m, Size(version), x, y)
    ensures DecodeMasked(k, version, mask) == DecodeMasked(m, version, mask)
  {
    hide DecodeCodewords, PathBits, BlocksM, IsFormat;
    PathSpared(m, k, version, mask);
  }

  lemma SymbolSecond(m: Matrix, version: nat, mask: nat, codewords: seq<Byte>)
    requires Symbol(m, version, mask, codewords)
    ensures 1 <= version <= 10 && mask < 8 && IsSquare(m, Size(version))
    ensures Unmask(CopyWord(m, Size(version), true)) == FormatWord(MaskData(mask))
    ensures FormatAccepted(FormatWord(MaskData(mask)))
  {
    hide FormatWord, FormatAccepted, MaskData, SecondCopy, Unmask, DataPath, Flatten, IsFunction, PatternDark, FirstCopy;
    assert CopyWord(m, Size(version), true) == MaskedWord(mask);
    UnmaskTwice(FormatWord(MaskData(mask)));
    FormatWordAccepted(MaskData(mask));
  }
}
