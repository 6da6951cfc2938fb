/** The program's encoder, loop by loop, against the specification of a symbol. */
module QrEncoder {
  import opened BitString
  import opened Gf256
  import opened ReedSolomon
  import opened QrStream
  import opened QrSymbol
  import opened QrCode
  import opened QrCapacity
  import opened QrCodec
  import opened Wrappers

  /** value >> i. */
  function ShiftRight(value: nat, i: nat): nat {
    if i == 0 then value else ShiftRight(value, i - 1) / 2
  }

  /** Appends the low `width` bits of `value`, highest first. */
  method Push(bits: seq<bool>, value: nat, width: nat) returns (r: seq<bool>)
    ensures r == bits + BitsOf(value, width)
  {
    r := bits;
    var i := width;
    while i > 0
      invariant 0 <= i <= width && r == bits + BitsOf(ShiftRight(value, i), width - i)
    {
      i := i - 1;
      r := r + [ShiftRight(value, i) % 2 == 1];
    }
  }

  method BuildSegment(payload: seq<Byte>, version: nat) returns (bits: seq<bool>)
    ensures bits == Segment(payload, version)
  {
    hide BitsOf, Flatten, Bits;
    bits := Push([], 4, 4);
    bits := Push(bits, |payload|, CountBits(version));
    assert payload[..0] == [];
    FlattenNone();
    for i := 0 to |payload|
      invariant bits == BitsOf(4, 4) + BitsOf(|payload|, CountBits(version)) + Flatten(payload[..i])
    {
      bits := bits + Bits(payload[i]);
      FlattenNext(payload, i);
    }
    assert payload[..|payload|] == payload;
  }

  method Terminate(segment: seq<bool>, capacityBits: nat) returns (bits: seq<bool>)
    requires |segment| <= capacityBits && capacityBits % 8 == 0
    ensures bits == Terminated(segment, capacityBits)
  {
    bits := segment + Zeros(if capacityBits - |segment| < 4 then capacityBits - |segment| else 4);
    ghost var closed := bits;
    while |bits| % 8 != 0
      invariant |closed| <= |bits| <= |closed| + (8 - |closed| % 8) % 8
      invariant bits == closed + Zeros(|bits| - |closed|)
      decreases |closed| + 8 - |bits|
    {
      bits := bits + [false];
    }
    assert |bits| == |closed| + (8 - |closed| % 8) % 8;
  }

  method PadUp(head: seq<Byte>, total: nat) returns (codewords: seq<Byte>)
    requires |head| <= total
    ensures codewords == Padded(head, total)
  {
    hide Pad;
    codewords := head;
    var index := 0;
    while |codewords| < total
      invariant index == |codewords| - |head| && |codewords| <= total
      invariant codewords == head + seq(index, i requires 0 <= i => Pad(i))
    {
      codewords := codewords + [Pad(index)];
      index := index + 1;
    }
  }

  /** Mode, count and payload, terminated, cut into bytes and padded. */
  method BuildData(payload: seq<Byte>, version: nat) returns (codewords: seq<Byte>)
    requires 1 <= version <= 10 && |payload| <= Capacity(version)
    ensures codewords == DataCodewords(payload, version)
  {
    hide Segment, Terminated, Chunks, Padded, DataTotal, Capacity;
    var total := DataTotal(version);
    SegmentFits(payload, version);
    var bits := BuildSegment(payload, version);
    bits := Terminate(bits, total * 8);
    codewords := PadUp(Chunks(bits), total);
  }

  lemma FlattenNone()
    ensures Flatten([]) == []
  {
  }

  lemma FlattenNext(payload: seq<Byte>, i: nat)
    requires i < |payload|
    ensures Flatten(payload[..i + 1]) == Flatten(payload[..i]) + Bits(payload[i])
  {
    hide Bits;
    assert payload[..i + 1][..i] == payload[..i];
  }

  /** The data blocks in order and their check bytes. */
  method BuildBlocks(gf: Tables, codewords: seq<Byte>, version: nat) returns (blocks: seq<seq<Byte>>, ec: seq<seq<Byte>>)
    requires gf.Valid() && 1 <= version <= 10 && |codewords| == DataTotal(version)
    ensures blocks == Split(codewords, BlocksM(version).sizes)
    ensures BlocksM(version).ecLen > 0 && ec == CheckBlocks(blocks, BlocksM(version).ecLen)
  {
    hide Remainder, BlocksM, Tables.Valid, Sum, Split;
    BlocksFacts(version);
    var sizes, ecLen := BlocksM(version).sizes, BlocksM(version).ecLen;
    blocks, ec := [], [];
    var offset := 0;
    SplitNone(codewords, sizes);
    for k := 0 to |sizes|
      invariant offset == Sum(sizes[..k]) <= |codewords|
      invariant blocks == Split(codewords, sizes[..k]) && ec == CheckBlocks(blocks, ecLen)
    {
      SplitNext(codewords, sizes, k);
      var block := codewords[offset..offset + sizes[k]];
      offset := offset + sizes[k];
      blocks := blocks + [block];
      var check := RsRemainder(gf, block, ecLen);
      ec := ec + [check];
    }
    assert sizes[..|sizes|] == sizes;
  }

  lemma SplitNone(codewords: seq<Byte>, sizes: seq<nat>)
    ensures Sum(sizes[..0]) == 0 && Split(codewords, sizes[..0]) == []
  {
  }

  lemma SplitNext(codewords: seq<Byte>, sizes: seq<nat>, k: nat)
    requires k < |sizes| && Sum(sizes) <= |codewords|
    ensures Sum(sizes[..k]) + sizes[k] == Sum(sizes[..k + 1]) <= |codewords|
    ensures Split(codewords, sizes[..k + 1])
         == Split(codewords, sizes[..k]) + [codewords[Sum(sizes[..k])..Sum(sizes[..k]) + sizes[k]]]
  {
    hide Sum;
    SumPrefix(sizes, k);
    SumPrefix(sizes, k + 1);
    SumNext(sizes, k);
    var more := sizes[..k + 1];
    assert |more| == k + 1 && more[..k] == sizes[..k];
  }

  lemma SumNext(sizes: seq<nat>, k: nat)
    requires k < |sizes|
    ensures Sum(sizes[..k + 1]) == Sum(sizes[..k]) + sizes[k]
  {
    var more := sizes[..k + 1];
    assert more[..k] == sizes[..k] && more[k] == sizes[k];
  }

  lemma {:induction false} SumPrefix(sizes: seq<nat>, k: nat)
    requires k <= |sizes|
    ensures Sum(sizes[..k]) <= Sum(sizes)
  {
    if k == |sizes| {
      assert sizes[..k] == sizes;
    } else {
      SumPrefix(sizes[..|sizes| - 1], k);
      assert sizes[..|sizes| - 1][..k] == sizes[..k];
    }
  }

  /** Row by row, skipping the blocks that are too short. */
  method InterleaveRows(blocks: seq<seq<Byte>>, rows: nat) returns (out: seq<Byte>)
    ensures out == Interleaved(blocks, rows)
  {
    out := [];
    for i := 0 to rows
      invariant out == Interleaved(blocks, i)
    {
      ghost var before := out;
      assert blocks[..0] == [];
      for k := 0 to |blocks|
        invariant out == before + Row(blocks[..k], i)
      {
        RowNext(blocks, i, k);
        if i < |blocks[k]| {
          out := out + [blocks[k][i]];
        }
      }
      assert blocks[..|blocks|] == blocks;
    }
  }

  lemma RowNext(blocks: seq<seq<Byte>>, i: nat, k: nat)
    requires k < |blocks|
    ensures Row(blocks[..k + 1], i) == Row(blocks[..k], i) + (if i < |blocks[k]| then [blocks[k][i]] else [])
  {
    assert blocks[..k + 1][..k] == blocks[..k];
  }

  method BuildCodewords(gf: Tables, payload: seq<Byte>, version: nat) returns (interleaved: seq<Byte>)
    requires gf.Valid() && 1 <= version <= 10 && |payload| <= Capacity(version)
    ensures interleaved == SymbolCodewords(payload, version)
  {
    hide Tables.Valid, Remainder, DataCodewords, Interleaved, Capacity, Split, Sum, BlocksM, Max, CheckBlocks;
    BlocksFacts(version);
    var data := BuildData(payload, version);
    var blocks, ec := BuildBlocks(gf, data, version);
    var first := InterleaveRows(blocks, Max(Sizes(blocks)));
    var second := InterleaveRows(ec, BlocksM(version).ecLen);
    EqualRows(ec, BlocksM(version).ecLen);
    interleaved := first + second;
  }

  lemma EqualRows(ec: seq<seq<Byte>>, ecLen: nat)
    requires |ec| > 0 && forall k :: 0 <= k < |ec| ==> |ec[k]| == ecLen
    ensures Max(Sizes(ec)) == ecLen
  {
    hide Max;
    var k :| 0 <= k < |ec| && Sizes(ec)[k] == Max(Sizes(ec));
  }

  // ---- choosing a version and a mask ---------------------------------------------------------

  /** The version asked for, or the smallest that holds the payload. */
  ghost predicate VersionFor(payload: seq<Byte>, asked: Option<nat>, version: nat) {
    && 1 <= version <= 10 && |payload| <= Capacity(version)
    && match asked
       case Some(v) => version == v
       case None => forall u :: 1 <= u < version ==> Capacity(u) < |payload|
  }

  method ChooseVersion(payload: seq<Byte>, asked: Option<nat>) returns (r: Result<nat>)
    ensures r.Ok? ==> VersionFor(payload, asked, r.value)
    ensures r.Err? ==> forall v :: !VersionFor(payload, asked, v)
    ensures r.Err? ==> r.reason == if asked.Some? && !(1 <= asked.value <= 10) then UnsupportedVersion else PayloadTooLong
  {
    hide Capacity;
    var version;
    if asked.None? {
      version := 1;
      while version <= 10 && |payload| > Capacity(version)
        invariant 1 <= version <= 11
        invariant forall u :: 1 <= u < version ==> Capacity(u) < |payload|
      {
        version := version + 1;
      }
      if version > 10 {
        return Err(PayloadTooLong);
      }
    } else {
      version := asked.value;
      if !(1 <= version <= 10) {
        return Err(UnsupportedVersion);
      }
    }
    if |payload| > Capacity(version) {
      return Err(PayloadTooLong);
    }
    return Ok(version);
  }

  ghost predicate Patterned(version: nat, n: nat, m: Matrix)
    requires 1 <= version <= 10
  {
    && IsSquare(m, n) && n == Size(version)
    && forall x, y :: In(n, x, y) ==> At(m, n, x, y) == (IsFunction(version, x, y) && PatternDark(version, x, y))
  }

  ghost predicate Filled(version: nat, n: nat, before: Matrix, after: Matrix, codewords: seq<Byte>)
    requires 1 <= version <= 10
  {
    && IsSquare(before, n) && IsSquare(after, n) && 8 * |codewords| <= |DataPath(version)|
    && (forall i :: 0 <= i < 8 * |codewords| ==> AtPos(after, n, DataPath(version)[i]) == Flatten(codewords)[i])
    && (forall i :: 8 * |codewords| <= i < |DataPath(version)| ==>
          AtPos(after, n, DataPath(version)[i]) == AtPos(before, n, DataPath(version)[i]))
    && (forall x, y :: In(n, x, y) && Pos(x, y) !in DataPath(version) ==> At(after, n, x, y) == At(before, n, x, y))
  }

  ghost predicate Masked(n: nat, before: Matrix, after: Matrix, reserved: Matrix, mask: nat) {
    && IsSquare(before, n) && IsSquare(after, n) && IsSquare(reserved, n)
    && forall x, y :: In(n, x, y) ==>
         At(after, n, x, y) == (At(before, n, x, y) != (!At(reserved, n, x, y) && Inverts(mask, x, y)))
  }

  /** The four drawing steps in this order leave the symbol. */
  lemma FinishedSymbol(version: nat, n: nat, mask: nat, codewords: seq<Byte>, reserved: Matrix, patterned: Matrix,
                       filled: Matrix, masked: Matrix, final: Matrix)
    requires 1 <= version <= 10 && mask < 8
    requires Patterned(version, n, patterned) && Filled(version, n, patterned, filled, codewords)
    requires ReservedIsFunction(version, n, reserved) && Masked(n, filled, masked, reserved, mask)
    requires FormatDrawn(masked, final, n, MaskedWord(mask), 15, 15) && At(final, n, 8, n - 8)
    ensures Symbol(final, version, mask, codewords)
  {
    hide DataPath, Flatten, Inverts, MaskedWord, FirstCopy, SecondCopy, IsFormat, IsFinder, IsTiming, IsAlignment,
         PatternDark;
    var path := DataPath(version);
    DataPathFacts(version);
    forall i | 0 <= i < |path|
      ensures AtPos(final, n, path[i]) == ((i < 8 * |codewords| && Flatten(codewords)[i]) != InvertsAt(mask, path[i]))
    {
      var x, y := path[i].x, path[i].y;
      assert In(n, x, y) && !IsFunction(version, x, y);
      assert At(final, n, x, y) == At(masked, n, x, y) == (At(filled, n, x, y) != Inverts(mask, x, y));
    }
    forall x, y | In(n, x, y) && IsFunction(version, x, y) && !IsFormat(n, x, y)
      ensures At(final, n, x, y) == PatternDark(version, x, y)
    {
      assert Pos(x, y) !in path;
      assert At(final, n, x, y) == At(masked, n, x, y) == At(filled, n, x, y) == At(patterned, n, x, y);
    }
  }

  /** One candidate: patterns, codewords, mask, format word. */
  method DrawSymbol(codewords: seq<Byte>, version: nat, mask: nat) returns (r: Result<Matrix>)
    requires 1 <= version <= 10 && mask < 8
    ensures r.Ok? ==> Symbol(r.value, version, mask, codewords)
    ensures r.Err? <==> 8 * |codewords| > |DataPath(version)|
    ensures r.Err? ==> r.reason == PlacementLeftOver
  {
    hide DataPath, Flatten, Inverts, MaskedWord, IsFunction, PatternDark, FormatDrawn, Symbol;
    var code := new Code(version);
    code.DrawFunctionPatterns();
    ghost var patterned := code.modules;
    assert ReservedIsFunction(version, code.size, code.reserved);
    var ok := code.DrawCodewords(codewords);
    if !ok {
      return Err(PlacementLeftOver);
    }
    ghost var filled := code.modules;
    code.ApplyMask(mask);
    ghost var masked, reserved := code.modules, code.reserved;
    code.DrawFormat(mask);
    FinishedSymbol(version, code.size, mask, codewords, reserved, patterned, filled, masked, code.modules);
    return Ok(code.modules);
  }

  /** Of the symbols for these codewords under the masks tried so far this one has the least penalty, and of those the
      lowest mask. */
  ghost predicate LeastPenalty(penalty: Matrix -> int, version: nat, codewords: seq<Byte>, best: Matrix, bestMask: nat, tried: nat) {
    forall k: nat, m :: k < tried && Symbol(m, version, k, codewords) ==>
      penalty(best) <= penalty(m) && (k < bestMask ==> penalty(best) < penalty(m))
  }

  lemma LeastNext(penalty: Matrix -> int, version: nat, codewords: seq<Byte>, best: Matrix, bestMask: nat, tried: nat, m: Matrix)
    requires tried > 0 ==> LeastPenalty(penalty, version, codewords, best, bestMask, tried) && bestMask < tried
    requires Symbol(m, version, tried, codewords)
    ensures if tried == 0 || penalty(m) < penalty(best) then LeastPenalty(penalty, version, codewords, m, tried, tried + 1)
            else LeastPenalty(penalty, version, codewords, best, bestMask, tried + 1)
  {
    hide Symbol;
    forall u | Symbol(u, version, tried, codewords) ensures u == m { SymbolUnique(u, m, version, tried, codewords); }
  }

  /** Draws every candidate mask and keeps the first of least penalty. That the codewords always have their places
      makes the placement error one that no payload meets. */
  method EncodePayload(gf: Tables, payload: seq<Byte>, version: Option<nat>, mask: Option<nat>, penalty: Matrix -> int)
    returns (r: Result<Printed>)
    requires gf.Valid() && (mask.Some? ==> mask.value < 8)
    ensures r.Ok? ==>
              && VersionFor(payload, version, r.value.version)
              && (mask.Some? ==> r.value.mask == mask.value)
              && Symbol(r.value.modules, r.value.version, r.value.mask, SymbolCodewords(payload, r.value.version))
    ensures r.Ok? && mask.None? ==> LeastPenalty(penalty, r.value.version, SymbolCodewords(payload, r.value.version),
                                          r.value.modules, r.value.mask, 8)
    ensures r.Err? ==> r.reason in {PayloadTooLong, UnsupportedVersion}
    ensures r.Err? <==> forall v :: !VersionFor(payload, version, v)
  {
    hide Tables.Valid, Symbol, SymbolCodewords, Capacity, DataPath, BlocksM, LeastPenalty;
    var chosen := ChooseVersion(payload, version);
    if chosen.Err? {
      return Err(chosen.reason);
    }
    var v := chosen.value;
    var interleaved := BuildCodewords(gf, payload, v);
    SymbolLength(payload, v);
    DataPathSuffices(v);
    var candidates := if mask.Some? then [mask.value] else [0, 1, 2, 3, 4, 5, 6, 7];
    var best: Option<Matrix>, bestMask: nat, bestScore := None, 0, 0;
    for c := 0 to |candidates|
      invariant c == 0 ==> best.None?
      invariant c > 0 ==> best.Some? && bestMask in candidates[..c] && Symbol(best.value, v, bestMask, interleaved)
      invariant c > 0 ==> bestScore == penalty(best.value)
      invariant c > 0 && mask.None? ==> bestMask < c && LeastPenalty(penalty, v, interleaved, best.value, bestMask, c)
    {
      var drawn := DrawSymbol(interleaved, v, candidates[c]);
      var score := penalty(drawn.value);
      if mask.None? {
        LeastNext(penalty, v, interleaved, if c == 0 then drawn.value else best.value, bestMask, c, drawn.value);
      }
      if best.None? || score < bestScore {
        best, bestMask, bestScore := Some(drawn.value), candidates[c], score;
      }
    }
    return Ok(Printed(v, bestMask, best.value));
  }
}
