/** Encoding a payload into a symbol and reading a symbol back.

    `EncodePayload` and `DecodeMatrix` follow the program's two entry points loop by loop. `Symbol` says what a finished
    symbol shows, `Decode` what reading a matrix yields; `RoundTrip` joins the two. */
module QrCodec {
  import opened BitString
  import opened Gf256
  import opened ReedSolomon
  import opened ErrorDetection
  import opened QrStream
  import opened QrSymbol
  import opened QrCapacity
  import opened QrCode
  import opened Wrappers

  datatype Printed = Printed(version: nat, mask: nat, modules: Matrix)

  datatype Decoded = Decoded(payload: seq<Byte>, version: nat, mask: nat)

  // ---- what a symbol shows -------------------------------------------------------------------

  /** The matrix shows these codewords under this mask: fixed patterns, both format words, and every bit of the
      path flipped where the mask says so; path places past the codewords show the mask alone. */
  ghost predicate Symbol(m: Matrix, version: nat, mask: nat, codewords: seq<Byte>)
  {
    && 1 <= version <= 10 && mask < 8 && IsSquare(m, Size(version))
    && 8 * |codewords| <= |DataPath(version)|
    && (forall i :: 0 <= i < 15 ==> AtPos(m, Size(version), FirstCopy(i)) == MaskedWord(mask)[i])
    && (forall i :: 0 <= i < 15 ==> AtPos(m, Size(version), SecondCopy(Size(version), i)) == MaskedWord(mask)[i])
    && (forall i :: 0 <= i < |DataPath(version)| ==>
          AtPos(m, Size(version), DataPath(version)[i])
          == ((i < 8 * |codewords| && Flatten(codewords)[i]) != InvertsAt(mask, DataPath(version)[i])))
    && (forall x, y :: In(Size(version), x, y) && IsFunction(version, x, y) && !IsFormat(Size(version), x, y) ==>
          At(m, Size(version), x, y) == PatternDark(version, x, y))
    && At(m, Size(version), 8, Size(version) - 8)
  }

  /** Codewords, version and mask determine every module. */
  lemma SymbolUnique(m: Matrix, k: Matrix, version: nat, mask: nat, codewords: seq<Byte>)
    requires Symbol(m, version, mask, codewords) && Symbol(k, version, mask, codewords)
    ensures m == k
  {
    hide DataPath, Flatten, IsFunction, IsFormat, PatternDark, MaskedWord, InvertsAt, FirstCopy, SecondCopy;
    var n := Size(version);
    forall x, y | In(n, x, y) ensures At(m, n, x, y) == At(k, n, x, y) {
      DataPathCovers(version, Pos(x, y));
      if IsFormat(n, x, y) {
        FormatPlace(n, x, y);
      } else if !IsFunction(version, x, y) {
        var i :| 0 <= i < |DataPath(version)| && DataPath(version)[i] == Pos(x, y);
        assert AtPos(m, n, DataPath(version)[i]) == AtPos(k, n, DataPath(version)[i]);
      }
    }
    SameModules(m, k, n);
  }

  /** A place of the format area is one of a copy's fifteen, or the dark module. */
  lemma FormatPlace(n: nat, x: int, y: int)
    requires n >= 21 && IsFormat(n, x, y)
    ensures || (x == 8 && y == n - 8) || (exists i :: 0 <= i < 15 && FirstCopy(i) == Pos(x, y))
            || (exists i :: 0 <= i < 15 && SecondCopy(n, i) == Pos(x, y))
  {
    if x == 8 && y < 6 { assert FirstCopy(y) == Pos(x, y);
    } else if x == 8 && y < 9 { assert FirstCopy(y - 1) == Pos(x, y);
    } else if x == 8 && y > n - 8 { assert SecondCopy(n, y - n + 15) == Pos(x, y);
    } else if y == 8 && x >= n - 8 { assert SecondCopy(n, n - 1 - x) == Pos(x, y);
    } else if y == 8 && x == 7 { assert FirstCopy(8) == Pos(x, y);
    } else if y == 8 { assert FirstCopy(14 - x) == Pos(x, y); }
  }

  lemma SameModules(m: Matrix, k: Matrix, n: nat)
    requires IsSquare(m, n) && IsSquare(k, n) && forall x, y :: In(n, x, y) ==> At(m, n, x, y) == At(k, n, x, y)
    ensures m == k
  {
    forall y | 0 <= y < n ensures m[y] == k[y] {
      forall x | 0 <= x < n ensures m[y][x] == k[y][x] { assert At(m, n, x, y) == At(k, n, x, y); }
    }
  }

  predicate InvertsAt(mask: nat, p: Pos) {
    p.x >= 0 && p.y >= 0 && Inverts(mask, p.x, p.y)
  }

  // ---- what reading a matrix yields ----------------------------------------------------------

  predicate Rectangular(m: Matrix) {
    |m| > 0 && forall y :: 0 <= y < |m| ==> |m[y]| == |m[0]|
  }

  function CopyWord(m: Matrix, n: nat, second: bool): (w: seq<bool>)
    requires IsSquare(m, n)
    ensures |w| == 15
  {
    seq(15, i requires 0 <= i < 15 => AtPos(m, n, if second then SecondCopy(n, i) else FirstCopy(i)))
  }

  /** The first copy that checks out. */
  function FormatInfo(m: Matrix, n: nat): (w: Option<seq<bool>>)
    requires IsSquare(m, n)
    ensures w.Some? ==> |w.value| == 15
  {
    var first, second := Unmask(CopyWord(m, n, false)), Unmask(CopyWord(m, n, true));
    if FormatAccepted(first) then Some(first) else if FormatAccepted(second) then Some(second) else None
  }

  function MaskOf(info: seq<bool>): nat
    requires |info| == 15
  {
    Bit(info[10]) + 2 * Bit(info[11]) + 4 * Bit(info[12])
  }

  /** Bits along the path with the mask undone. */
  function PathBits(m: Matrix, version: nat, mask: nat): (bits: seq<bool>)
    requires 1 <= version <= 10 && IsSquare(m, Size(version))
    ensures |bits| == |DataPath(version)|
  {
    seq(|DataPath(version)|, i requires 0 <= i < |DataPath(version)| =>
      AtPos(m, Size(version), DataPath(version)[i]) != InvertsAt(mask, DataPath(version)[i]))
  }

  ghost function Decode(m: Matrix): Result<Decoded>
    requires Rectangular(m)
  {
    var n := |m|;
    if n != |m[0]| || (n - 17) % 4 != 0 then Err(NotAMatrix)
    else if !(1 <= (n - 17) / 4 <= 10) then Err(UnsupportedVersion)
    else DecodeSquare(m, (n - 17) / 4)
  }

  function TakeCodewords(bits: seq<bool>, total: nat): (codewords: seq<Byte>)
    requires |bits| >= 8 * total
    ensures |codewords| == total
  {
    Chunks(bits[..8 * total])
  }

  ghost function DecodeSquare(m: Matrix, version: nat): Result<Decoded>
    requires 1 <= version <= 10 && IsSquare(m, Size(version))
  {
    var info := FormatInfo(m, Size(version));
    if info.None? then Err(BadFormat)
    else if info.value[13] || info.value[14] then Err(UnexpectedLevel)
    else DecodeMasked(m, version, MaskOf(info.value))
  }

  ghost function DecodeMasked(m: Matrix, version: nat, mask: nat): Result<Decoded>
    requires 1 <= version <= 10 && IsSquare(m, Size(version))
  {
    var bits, total := PathBits(m, version, mask), BlocksM(version).total;
    if |bits| < 8 * total then Err(PlacementLeftOver)
    else Labelled(DecodeCodewords(TakeCodewords(bits, total), version), version, mask)
  }

  function Labelled(r: Result<seq<Byte>>, version: nat, mask: nat): Result<Decoded> {
    match r
    case Err(reason) => Err(reason)
    case Ok(payload) => Ok(Decoded(payload, version, mask))
  }

  // ---- reading undoes writing ----------------------------------------------------------------

  lemma UnmaskTwice(w: seq<bool>)
    requires |w| == 15
    ensures Unmask(Unmask(w)) == w
  {
  }

  lemma FormatOfSymbol(m: Matrix, version: nat, mask: nat, codewords: seq<Byte>)
    requires Symbol(m, version, mask, codewords)
    ensures FormatInfo(m, Size(version)) == Some(FormatWord(MaskData(mask)))
  {
    hide Flatten, FormatWord, FormatAccepted, IsFunction, PatternDark, DataPath, FirstCopy, SecondCopy, MaskData, Unmask;
    var n := Size(version);
    assert CopyWord(m, n, false) == MaskedWord(mask);
    UnmaskTwice(FormatWord(MaskData(mask)));
    FormatWordAccepted(MaskData(mask));
  }

  lemma MaskOfWord(mask: nat)
    requires mask < 8
    ensures var w := FormatWord(MaskData(mask)); MaskOf(w) == mask && !w[13] && !w[14]
  {
    hide FormatWord;
    FormatWordTop(MaskData(mask));
    var w := FormatWord(MaskData(mask));
    assert w[10..][0] == w[10] && w[10..][1] == w[11] && w[10..][2] == w[12];
    assert w[10..][3] == w[13] && w[10..][4] == w[14];
  }

  lemma BitsOfSymbol(m: Matrix, version: nat, mask: nat, codewords: seq<Byte>)
    requires Symbol(m, version, mask, codewords)
    ensures 1 <= version <= 10 && IsSquare(m, Size(version))
    ensures |PathBits(m, version, mask)| >= 8 * |codewords|
    ensures TakeCodewords(PathBits(m, version, mask), |codewords|) == codewords
  {
    hide Flatten, IsFunction, PatternDark, DataPath, Chunks, MaskedWord, InvertsAt;
    var bits := PathBits(m, version, mask);
    assert bits[..8 * |codewords|] == Flatten(codewords);
    ChunksFlatten(codewords);
  }

  lemma DecodeIsSquare(m: Matrix, version: nat)
    requires 1 <= version <= 10 && IsSquare(m, Size(version))
    ensures Rectangular(m) && Decode(m) == DecodeSquare(m, version)
  {
    hide DecodeSquare;
    assert (|m| - 17) / 4 == version;
  }

  /** A symbol of exactly the right number of codewords decodes as its codewords do. */
  lemma DecodeOfSymbol(m: Matrix, version: nat, mask: nat, codewords: seq<Byte>)
    requires Symbol(m, version, mask, codewords) && |codewords| == BlocksM(version).total
    ensures Rectangular(m)
    ensures Decode(m) == Labelled(DecodeCodewords(codewords, version), version, mask)
  {
    hide *;
    SymbolSize(m, version, mask, codewords);
    DecodeIsSquare(m, version);
    FormatOfSymbol(m, version, mask, codewords);
    MaskOfWord(mask);
    BitsOfSymbol(m, version, mask, codewords);
    DecodeBySteps(m, version, mask, FormatWord(MaskData(mask)), codewords);
  }

  lemma DecodeBySteps(m: Matrix, version: nat, mask: nat, word: seq<bool>, codewords: seq<Byte>)
    requires 1 <= version <= 10 && IsSquare(m, Size(version)) && |word| == 15
    requires FormatInfo(m, Size(version)) == Some(word) && !word[13] && !word[14] && MaskOf(word) == mask
    requires |codewords| == BlocksM(version).total && |PathBits(m, version, mask)| >= 8 * |codewords|
    requires TakeCodewords(PathBits(m, version, mask), |codewords|) == codewords
    ensures DecodeSquare(m, version) == Labelled(DecodeCodewords(codewords, version), version, mask)
  {
    hide BlocksM, DecodeCodewords, FormatInfo, MaskOf, PathBits, TakeCodewords, Labelled;
  }

  lemma SymbolSize(m: Matrix, version: nat, mask: nat, codewords: seq<Byte>)
    requires Symbol(m, version, mask, codewords)
    ensures 1 <= version <= 10 && mask < 8 && IsSquare(m, Size(version)) && |m| == 17 + 4 * version
  {
  }

  /** Every payload that fits, every version and every mask: the symbol drawn for it decodes to it. */
  lemma RoundTrip(m: Matrix, payload: seq<Byte>, version: nat, mask: nat)
    requires 1 <= version <= 10 && |payload| <= Capacity(version)
    requires Symbol(m, version, mask, SymbolCodewords(payload, version))
    ensures Rectangular(m) && Decode(m) == Ok(Decoded(payload, version, mask))
  {
    hide Symbol, Decode, SymbolCodewords, DecodeCodewords, BlocksM, Capacity;
    DecodeSymbolCodewords(payload, version);
    DecodeOfSymbol(m, version, mask, SymbolCodewords(payload, version));
  }

  /** Block k as written: data and its remainder. */
  function WrittenBlock(payload: seq<Byte>, version: nat, k: nat): seq<Byte>
    requires 1 <= version <= 10 && |payload| <= Capacity(version) && k < |BlocksM(version).sizes|
  {
    BlocksFacts(version);
    var block := Split(DataCodewords(payload, version), BlocksM(version).sizes)[k];
    block + Remainder(block, BlocksM(version).ecLen)
  }

  /** Block k as read. */
  function ReadBlock(codewords: seq<Byte>, version: nat, k: nat): seq<Byte>
    requires 1 <= version <= 10 && |codewords| == BlocksM(version).total && k < |BlocksM(version).sizes|
  {
    DataBlocks(codewords, version)[k] + EcBlocks(codewords, version)[k]
  }

  lemma BlockLengths(payload: seq<Byte>, codewords: seq<Byte>, version: nat, k: nat)
    requires 1 <= version <= 10 && |payload| <= Capacity(version)
    requires |codewords| == BlocksM(version).total && k < |BlocksM(version).sizes|
    ensures |WrittenBlock(payload, version, k)| == |ReadBlock(codewords, version, k)| <= 255
  {
    hide BlocksM, Remainder, DataCodewords, Capacity;
    BlocksFacts(version);
    DataBlocksFacts(codewords, version);
    assert |DataBlocks(codewords, version)[k]| == Sizes(DataBlocks(codewords, version))[k];
  }

  function BlockDamage(payload: seq<Byte>, codewords: seq<Byte>, version: nat, k: nat): nat
    requires 1 <= version <= 10 && |payload| <= Capacity(version)
    requires |codewords| == BlocksM(version).total && k < |BlocksM(version).sizes|
  {
    BlockLengths(payload, codewords, version, k);
    Distance(WrittenBlock(payload, version, k), ReadBlock(codewords, version, k))
  }

  lemma MaskedHasBits(m: Matrix, version: nat, mask: nat)
    requires 1 <= version <= 10 && IsSquare(m, Size(version))
    ensures DecodeMasked(m, version, mask) != Err(PlacementLeftOver)
  {
    hide BlocksM, DataPath, PathBits, TakeCodewords, DecodeCodewords;
    var total := BlocksM(version).total;
    DataPathSuffices(version);
    CodewordErrors(TakeCodewords(PathBits(m, version, mask), total), version);
  }

  /** Whatever the matrix, once its format has been read the path has bits enough for the codewords. */
  lemma NeverLeftOver(m: Matrix)
    requires Rectangular(m)
    ensures Decode(m) != Err(PlacementLeftOver)
  {
    hide DecodeMasked, FormatInfo, MaskOf;
    var n := |m|;
    if n == |m[0]| && (n - 17) % 4 == 0 && 1 <= (n - 17) / 4 <= 10 {
      var version := (n - 17) / 4;
      var info := FormatInfo(m, n);
      if info.Some? { MaskedHasBits(m, version, MaskOf(info.value)); }
    }
  }

  /** A symbol whose codewords differ from the written ones in between one and ecLen places of some block is
      rejected by the block check. */
  lemma DamageRejected(m: Matrix, version: nat, mask: nat, payload: seq<Byte>, damaged: seq<Byte>, k: nat)
    requires 1 <= version <= 10 && |payload| <= Capacity(version)
    requires |damaged| == BlocksM(version).total && k < |BlocksM(version).sizes|
    requires Symbol(m, version, mask, damaged)
    requires 1 <= BlockDamage(payload, damaged, version, k) <= BlocksM(version).ecLen
    ensures Rectangular(m) && Decode(m) == Err(BlockFails)
  {
    hide Symbol, Decode, BlocksM, Capacity, Distance, Codeword, Join, DataBlocks, EcBlocks, Remainder, DataCodewords;
    BlocksFacts(version);
    var block := Split(DataCodewords(payload, version), BlocksM(version).sizes)[k];
    RemainderCodeword(block, BlocksM(version).ecLen);
    BlockLengths(payload, damaged, version, k);
    CorruptionDetected(WrittenBlock(payload, version, k), ReadBlock(damaged, version, k), BlocksM(version).ecLen);
    DecodeOfSymbol(m, version, mask, damaged);
  }
}
