/** The program's reader, loop by loop, against the specification of decoding. */
module QrDecoder {
  import opened BitString
  import opened Gf256
  import opened ReedSolomon
  import opened QrStream
  import opened QrSymbol
  import opened QrCode
  import opened QrCodec
  import opened QrEncoder
  import opened Wrappers

  /** Reads both copies of the format word and returns the first that checks out, unmasked. */
  method ReadFormat(matrix: Matrix, n: nat) returns (info: Option<seq<bool>>)
    requires IsSquare(matrix, n) && n >= 21
    ensures info == FormatInfo(matrix, n)
  {
    hide FormatAccepted, FirstCopy, SecondCopy, Unmask;
    CopyPositions(n);
    var positions: seq<Pos> := seq(6, i requires 0 <= i < 6 => Pos(8, i)) + [Pos(8, 7), Pos(8, 8), Pos(7, 8)]
                               + seq(6, i requires 0 <= i < 6 => Pos(5 - i, 8));
    var bits: seq<bool> := [];
    for i := 0 to 15
      invariant |bits| == i && forall k :: 0 <= k < i ==> bits[k] == AtPos(matrix, n, FirstCopy(k))
    {
      assert positions[i] == FirstCopy(i);
      bits := bits + [AtPos(matrix, n, positions[i])];
    }
    assert bits == CopyWord(matrix, n, false);
    var mirror: seq<bool> := [];
    for i := 0 to 8
      invariant |mirror| == i && forall k :: 0 <= k < i ==> mirror[k] == AtPos(matrix, n, SecondCopy(n, k))
    {
      mirror := mirror + [AtPos(matrix, n, Pos(n - 1 - i, 8))];
    }
    for i := 8 to 15
      invariant |mirror| == i && forall k :: 0 <= k < i ==> mirror[k] == AtPos(matrix, n, SecondCopy(n, k))
    {
      mirror := mirror + [AtPos(matrix, n, Pos(8, n - 15 + i))];
    }
    assert mirror == CopyWord(matrix, n, true);
    if FormatAccepted(Unmask(bits)) {
      return Some(Unmask(bits));
    }
    if FormatAccepted(Unmask(mirror)) {
      return Some(Unmask(mirror));
    }
    return None;
  }

  ghost predicate ReadSoFar(m: Matrix, version: nat, n: nat, mask: nat, w: seq<Pos>, k: nat, bits: seq<bool>) {
    && 1 <= version <= 10 && n == Size(version) && IsSquare(m, n) && w == Walk(n, n - 1) && k <= |w|
    && |bits| == |FreeOf(version, w[..k])| <= |DataPath(version)|
    && bits == PathBits(m, version, mask)[..|bits|]
  }

  lemma ReadStart(m: Matrix, version: nat, n: nat, mask: nat)
    requires 1 <= version <= 10 && n == Size(version) && IsSquare(m, n)
    ensures n >= 21 && ReadSoFar(m, version, n, mask, Walk(n, n - 1), 0, [])
    ensures WalkState(version, n, Walk(n, n - 1), 0, n - 1)
  {
    hide Walk, PathBits;
  }

  lemma ReadStep(m: Matrix, version: nat, n: nat, mask: nat, w: seq<Pos>, k: nat, bits: seq<bool>)
    requires k < |w| && ReadSoFar(m, version, n, mask, w, k, bits)
    ensures if Free(version, w[k])
            then ReadSoFar(m, version, n, mask, w, k + 1, bits + [AtPos(m, n, w[k]) != InvertsAt(mask, w[k])])
            else ReadSoFar(m, version, n, mask, w, k + 1, bits)
  {
    hide Walk, FreeOf, Free, DataPath, InvertsAt;
    FreeStep(version, w, k);
    PathIsFreeWalk(version);
  }

  lemma ReadDone(m: Matrix, version: nat, n: nat, mask: nat, w: seq<Pos>, k: nat, bits: seq<bool>)
    requires ReadSoFar(m, version, n, mask, w, k, bits) && w[..k] == w
    ensures bits == PathBits(m, version, mask)
  {
    hide Walk, FreeOf;
    PathIsFreeWalk(version);
  }

  /** Walks the symbol and undoes the mask on the way out. */
  method ReadBits(matrix: Matrix, version: nat, mask: nat) returns (bits: seq<bool>)
    requires 1 <= version <= 10 && IsSquare(matrix, Size(version))
    ensures bits == PathBits(matrix, version, mask)
  {
    hide Walk, FreeOf, Column, ColumnAt, DataPath, WalkState, ColumnState, ReadSoFar, PathBits, IsFunction, PatternDark,
         Free, Size, Inverts;
    var function_ := new Code(version);
    function_.DrawFunctionPatterns();
    var n := Size(version);
    assert ReservedIsFunction(version, n, function_.reserved);
    hide ReservedIsFunction;
    ReadStart(matrix, version, n, mask);
    ghost var w := Walk(n, n - 1);
    ghost var k: nat := 0;
    bits := [];
    var right: int := n - 1;
    while right >= 1
      invariant right < n && WalkState(version, n, w, k, right)
      invariant ReservedIsFunction(version, n, function_.reserved)
      invariant ReadSoFar(matrix, version, n, mask, w, k, bits)
      decreases right
    {
      if right == 6 {
        right := 5;
      }
      WalkColumn(version, n, w, k, right);
      for vertical := 0 to n
        invariant ColumnState(version, n, w, k, right, 2 * vertical)
        invariant ReservedIsFunction(version, n, function_.reserved)
        invariant ReadSoFar(matrix, version, n, mask, w, k, bits)
      {
        for j := 0 to 2
          invariant ColumnState(version, n, w, k, right, 2 * vertical + j)
          invariant ReservedIsFunction(version, n, function_.reserved)
          invariant ReadSoFar(matrix, version, n, mask, w, k, bits)
        {
          var x := right - j;
          var upward := ((right + 1) / 2) % 2 == 0;
          var y := if upward then n - 1 - vertical else vertical;
          ColumnStep(version, n, w, k, right, 2 * vertical + j);
          ColumnAtIs(n, right, vertical, j);
          WalkInside(version, n, w, k, function_.reserved);
          ReadStep(matrix, version, n, mask, w, k, bits);
          k := k + 1;
          if function_.reserved[y][x] {
            continue;
          }
          var invert := Inverts(mask, x, y);
          bits := bits + [matrix[y][x] != invert];
        }
      }
      ColumnDone(version, n, w, k, right);
      right := right - 2;
    }
    WalkDone(version, n, w, k, right);
    ReadDone(matrix, version, n, mask, w, k, bits);
  }

  /** Deals the codewords from `start` back to the blocks, row by row. */
  method DealRows(codewords: seq<Byte>, start: nat, sizes: seq<nat>, rows: nat) returns (blocks: seq<seq<Byte>>, position: nat)
    requires |sizes| > 0 && rows == Max(sizes) && start + Sum(sizes) <= |codewords|
    ensures blocks == Deinterleave(codewords[start..], sizes)
    ensures position == start + Sum(sizes)
  {
    hide Sum, Max, CountAbove, RowsBefore, Deinterleave;
    ghost var whole := Deinterleave(codewords[start..], sizes);
    blocks := seq(|sizes|, _ => []);
    position := start;
    RowsStart(sizes);
    for i := 0 to rows
      invariant |blocks| == |sizes| && position == start + RowsBefore(sizes, i)
      invariant forall k :: 0 <= k < |sizes| ==> blocks[k] == whole[k][..Least(i, sizes[k])]
    {
      CountStart(sizes, i);
      for index := 0 to |sizes|
        invariant |blocks| == |sizes| && position == start + Offset(sizes, i, index)
        invariant forall k :: 0 <= k < |sizes| ==> blocks[k] == whole[k][..Least(if k < index then i + 1 else i, sizes[k])]
      {
        var size := sizes[index];
        CountNext(sizes, i, index);
        if i < size {
          OffsetBound(sizes, i, index);
          DealtAt(codewords, start, sizes, i, index);
          blocks := blocks[index := blocks[index] + [codewords[position]]];
          position := position + 1;
        }
      }
      RowsNext(sizes, i);
      assert sizes[..|sizes|] == sizes;
    }
    RowsTotal(sizes);
    assert forall k :: 0 <= k < |sizes| ==> blocks[k] == whole[k];
  }

  lemma RowsStart(sizes: seq<nat>)
    ensures RowsBefore(sizes, 0) == 0
  {
  }

  lemma CountStart(sizes: seq<nat>, i: nat)
    ensures Offset(sizes, i, 0) == RowsBefore(sizes, i)
  {
  }

  lemma CountNext(sizes: seq<nat>, i: nat, k: nat)
    requires k < |sizes|
    ensures Offset(sizes, i, k + 1) == Offset(sizes, i, k) + (if i < sizes[k] then 1 else 0)
  {
    assert sizes[..k + 1][..k] == sizes[..k];
  }

  lemma DealtAt(codewords: seq<Byte>, start: nat, sizes: seq<nat>, i: nat, k: nat)
    requires |sizes| > 0 && start + Sum(sizes) <= |codewords| && k < |sizes| && i < sizes[k]
    requires Offset(sizes, i, k) < Sum(sizes)
    ensures Deinterleave(codewords[start..], sizes)[k][i] == codewords[start + Offset(sizes, i, k)]
  {
    hide Sum, Offset;
  }

  /** Syndromes of every block; one nonzero value rejects. */
  method CheckAll(gf: Tables, blocks: seq<seq<Byte>>, ec: seq<seq<Byte>>, ecLen: nat) returns (ok: bool)
    requires gf.Valid() && |blocks| == |ec| && ecLen <= 512
    ensures ok <==> forall k :: 0 <= k < |blocks| ==> Codeword(blocks[k] + ec[k], ecLen)
  {
    hide Tables.Valid, Eval, Power;
    for index := 0 to |blocks|
      invariant forall k :: 0 <= k < index ==> Codeword(blocks[k] + ec[k], ecLen)
    {
      var syndromes := RsSyndromes(gf, blocks[index] + ec[index], ecLen);
      if exists k :: 0 <= k < |syndromes| && syndromes[k] != Zero() {
        assert !Codeword(blocks[index] + ec[index], ecLen) by {
          ghost var k :| 0 <= k < |syndromes| && syndromes[k] != Zero();
          assert Eval(blocks[index] + ec[index], Power(k)) == syndromes[k];
        }
        return false;
      }
    }
    return true;
  }

  /** Takes `width` bits off the front as a number; None when too few are left. */
  method Take(bits: seq<bool>, width: nat) returns (value: Option<nat>, rest: seq<bool>)
    ensures if |bits| < width then value == None else value == Some(Value(bits[..width])) && rest == bits[width..]
  {
    rest := bits;
    var v := 0;
    for i := 0 to width
      invariant i <= |bits| && rest == bits[i..] && v == Value(bits[..i])
    {
      if rest == [] {
        return None, rest;
      }
      assert bits[..i + 1][..i] == bits[..i];
      v := 2 * v + Bit(rest[0]);
      rest := rest[1..];
    }
    return Some(v), rest;
  }

  method ParseStream(stream: seq<Byte>, version: nat) returns (r: Result<seq<Byte>>)
    requires |stream| >= 16
    ensures r == Parse(stream, version)
  {
    hide Value, Chunks, FromBits, Bits, Flatten;
    var textBits: seq<bool> := [];
    FlattenNone();
    assert stream[..0] == [];
    for i := 0 to |stream|
      invariant textBits == Flatten(stream[..i])
    {
      textBits := textBits + Bits(stream[i]);
      FlattenNext(stream, i);
    }
    assert stream[..|stream|] == stream;
    var all := textBits;
    var mode;
    mode, textBits := Take(textBits, 4);
    if mode.value != 4 {
      return Err(NotByteMode);
    }
    var cb := CountBits(version);
    var length;
    length, textBits := Take(textBits, cb);
    assert all[4..][..cb] == all[4..4 + cb] && textBits == all[4 + cb..];
    var payload: seq<Byte> := [];
    assert all[4 + cb..4 + cb] == [];
    ChunksNone();
    for i := 0 to length.value
      invariant 4 + cb + 8 * i <= |all| && textBits == all[4 + cb + 8 * i..]
      invariant payload == Chunks(all[4 + cb..4 + cb + 8 * i])
    {
      if |textBits| < 8 {
        return Err(Truncated);
      }
      ChunksNext(all, 4 + cb, 8 * i);
      payload := payload + [FromBits(textBits[..8])];
      textBits := textBits[8..];
    }
    return Ok(payload);
  }

  lemma ChunksNone()
    ensures Chunks([]) == []
  {
  }

  lemma ChunksNext(all: seq<bool>, start: nat, n: nat)
    requires n % 8 == 0 && start + n + 8 <= |all|
    ensures Chunks(all[start..start + (n + 8)]) == Chunks(all[start..start + n]) + [FromBits(all[start + n..][..8])]
  {
    hide FromBits;
    var s := all[start..start + (n + 8)];
    assert s[..|s| - 8] == all[start..start + n] && s[|s| - 8..] == all[start + n..][..8];
  }

  method JoinBlocks(blocks: seq<seq<Byte>>) returns (stream: seq<Byte>)
    ensures stream == Join(blocks)
  {
    stream := [];
    for k := 0 to |blocks|
      invariant stream == Join(blocks[..k])
    {
      assert blocks[..k + 1][..k] == blocks[..k];
      stream := stream + blocks[k];
    }
    assert blocks[..|blocks|] == blocks;
  }

  method ReadCodewords(gf: Tables, codewords: seq<Byte>, version: nat) returns (r: Result<seq<Byte>>)
    requires gf.Valid() && 1 <= version <= 10 && |codewords| == BlocksM(version).total
    ensures r == DecodeCodewords(codewords, version)
  {
    hide Tables.Valid, BlocksM, Sum, Max, Deinterleave, Codeword, Parse, Join;
    BlocksFacts(version);
    var sizes, ecLen := BlocksM(version).sizes, BlocksM(version).ecLen;
    var blocks, position := DealRows(codewords, 0, sizes, Max(sizes));
    assert codewords[0..] == codewords;
    SumRepeat(ecLen, |sizes|);
    RepeatMax(ecLen, |sizes|);
    var ec, _ := DealRows(codewords, position, Repeat(ecLen, |sizes|), ecLen);
    assert blocks == DataBlocks(codewords, version) && ec == EcBlocks(codewords, version);
    var ok := CheckAll(gf, blocks, ec, ecLen);
    DataBlocksFacts(codewords, version);
    if !ok {
      return Err(BlockFails);
    }
    var stream := JoinBlocks(blocks);
    r := ParseStream(stream, version);
  }

  lemma RepeatMax(value: nat, count: nat)
    requires count > 0
    ensures Max(Repeat(value, count)) == value
  {
    hide Max;
    var k :| 0 <= k < count && Repeat(value, count)[k] == Max(Repeat(value, count));
  }

  method DecodeMatrix(gf: Tables, matrix: Matrix) returns (r: Result<Decoded>)
    requires gf.Valid() && Rectangular(matrix)
    ensures r == Decode(matrix)
  {
    hide Tables.Valid, FormatInfo, PathBits, DecodeCodewords, MaskOf, BlocksM, Chunks;
    var n := |matrix|;
    if n != |matrix[0]| || (n - 17) % 4 != 0 {
      return Err(NotAMatrix);
    }
    if !(1 <= (n - 17) / 4 <= 10) {
      return Err(UnsupportedVersion);
    }
    var version: nat := (n - 17) / 4;
    DecodeIsSquare(matrix, version);
    var info := ReadFormat(matrix, n);
    if info.None? {
      return Err(BadFormat);
    }
    var mask := MaskOf(info.value);
    if info.value[13] || info.value[14] {
      return Err(UnexpectedLevel);
    }
    var bits := ReadBits(matrix, version, mask);
    var total := BlocksM(version).total;
    if |bits| < 8 * total {
      return Err(PlacementLeftOver);
    }
    var payload := ReadCodewords(gf, TakeCodewords(bits, total), version);
    r := Labelled(payload, version, mask);
  }

  /** Writing a symbol and reading it back at once, as the asset writer does, returns the payload. */
  method WriteAndReadBack(gf: Tables, payload: seq<Byte>, version: nat, penalty: Matrix -> int) returns (r: Result<Decoded>)
    requires gf.Valid()
    ensures r.Ok? ==> r.value.payload == payload && r.value.version == version
    ensures r.Err? ==> r.reason in {PayloadTooLong, UnsupportedVersion}
    ensures r.Ok? <==> 1 <= version <= 10 && |payload| <= Capacity(version)
  {
    hide Tables.Valid, Symbol, Decode, SymbolCodewords, Capacity;
    var code := EncodePayload(gf, payload, Some(version), None, penalty);
    assert VersionFor(payload, Some(version), version) <==> 1 <= version <= 10 && |payload| <= Capacity(version);
    if code.Err? {
      return Err(code.reason);
    }
    SymbolMask(code.value.modules, version, code.value.mask, SymbolCodewords(payload, version));
    RoundTrip(code.value.modules, payload, version, code.value.mask);
    r := DecodeMatrix(gf, code.value.modules);
  }

  lemma SymbolMask(m: Matrix, version: nat, mask: nat, codewords: seq<Byte>)
    requires Symbol(m, version, mask, codewords)
    ensures mask < 8
  {
  }
}
