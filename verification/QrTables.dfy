/** Values of the symbology that encoder and decoder share, against what sections 7.4, 7.8 and 7.9 of ISO/IEC 18004:2015 say
    they are. */
module QrTables {
  import BitString
  import opened Gf256
  import opened QrCode
  import opened Quotients
  import opened QrStream
  import opened QrSymbol

  // ---- masks ---------------------------------------------------------------------------------

  lemma ByRemainder(p: nat)
    ensures p % 2 + p % 3 == 0 <==> p % 6 == 0
    ensures (p % 2 + p % 3) % 2 == 0 <==> p % 6 < 3
  {
    var q, r := p / 6, p % 6;
    assert p == 2 * (3 * q) + r && p % 2 == r % 2;
    assert p == 3 * (2 * q) + r && p % 3 == r % 3;
    SmallRemainder(r);
  }

  lemma SmallRemainder(r: nat)
    requires r < 6
    ensures r % 2 + r % 3 == 0 <==> r == 0
    ensures (r % 2 + r % 3) % 2 == 0 <==> r < 3
  {
  }

  /** The eight masks: rows, columns, diagonals, bricks, and three that depend on the product of the coordinates alone or with
      their sum. */
  lemma MaskMeaning(x: nat, y: nat)
    ensures Inverts(0, x, y) <==> x % 2 == y % 2
    ensures Inverts(1, x, y) <==> y % 2 == 0
    ensures Inverts(2, x, y) <==> x % 3 == 0
    ensures Inverts(3, x, y) <==> (x % 3 + y % 3) % 3 == 0
    ensures Inverts(4, x, y) <==> x / 3 % 2 == y / 2 % 2
    ensures Inverts(5, x, y) <==> x * y % 6 == 0
    ensures Inverts(6, x, y) <==> x * y % 6 < 3
    ensures Inverts(7, x, y) <==> (x % 2 == y % 2 <==> x * y % 3 != 1)
  {
    var p := x * y;
    ByRemainder(p);
    InvertsIs(0, x, y);
    InvertsIs(3, x, y);
    InvertsIs(4, x, y);
    InvertsIs(5, x, y);
    InvertsIs(6, x, y);
    InvertsIs(7, x, y);
    Parities(x, y);
    Halves(x / 3, y / 2);
    Odds((x + y) % 2, p % 3);
  }

  lemma Parities(x: nat, y: nat)
    ensures (x + y) % 2 == 0 <==> x % 2 == y % 2
    ensures (x + y) % 3 == (x % 3 + y % 3) % 3
  {
    Halves(x, y);
    Thirds(x / 3, x % 3, y / 3, y % 3);
  }

  lemma Thirds(p: nat, a: nat, q: nat, b: nat)
    requires a < 3 && b < 3
    ensures (3 * p + a + (3 * q + b)) % 3 == (a + b) % 3
  {
    var c := (a + b) / 3;
    DivExact(p + q + c, 3, (a + b) % 3, 3 * p + a + (3 * q + b));
  }

  lemma Halves(a: nat, b: nat)
    ensures (a + b) % 2 == 0 <==> a % 2 == b % 2
  {
  }

  lemma Odds(a: nat, b: nat)
    requires a < 2 && b < 3
    ensures (a + b) % 2 == 0 <==> (a == 0 <==> b != 1)
  {
  }

  // ---- format words --------------------------------------------------------------------------

  const I: bool := true
  const O: bool := false

  /** The words of error correction level M in the standard's table, low bit first. */
  function TableWord(mask: nat): (w: seq<bool>)
    ensures |w| == 15
  {
    match mask
    case 0 => [O, I, O, O, I, O, O, O, O, O, I, O, I, O, I]
    case 1 => [I, O, I, O, O, I, O, O, I, O, O, O, I, O, I]
    case 2 => [O, O, I, I, I, I, I, O, O, I, I, I, I, O, I]
    case 3 => [I, I, O, I, O, O, I, O, I, I, O, I, I, O, I]
    case 4 => [I, O, O, I, I, I, I, I, I, O, I, O, O, O, I]
    case 5 => [O, I, I, I, O, O, I, I, O, O, O, O, O, O, I]
    case 6 => [I, I, I, O, I, O, O, I, I, I, I, I, O, O, I]
    case _ => [O, O, O, O, O, I, O, I, O, I, O, I, O, O, I]
  }

  /** The same before the fixed pattern is added. */
  function PlainWord(mask: nat): (w: seq<bool>)
    ensures |w| == 15
  {
    match mask
    case 0 => [O, O, O, O, O, O, O, O, O, O, O, O, O, O, O]
    case 1 => [I, I, I, O, I, I, O, O, I, O, I, O, O, O, O]
    case 2 => [O, I, I, I, O, I, I, O, O, I, O, I, O, O, O]
    case 3 => [I, O, O, I, I, O, I, O, I, I, I, I, O, O, O]
    case 4 => [I, I, O, I, O, I, I, I, I, O, O, O, I, O, O]
    case 5 => [O, O, I, I, I, O, I, I, O, O, I, O, I, O, O]
    case 6 => [I, O, I, O, O, O, O, I, I, I, O, I, I, O, O]
    case _ => [O, I, O, O, I, I, O, I, O, I, I, I, I, O, O]
  }

  /** As multiples of the generator. */
  function TableQuotient(mask: nat): (q: seq<bool>)
    ensures |q| == 5
  {
    match mask
    case 0 => [O, O, O, O, O]
    case 1 => [I, O, O, O, O]
    case 2 => [O, I, O, O, O]
    case 3 => [I, I, O, O, O]
    case 4 => [I, O, I, O, O]
    case 5 => [O, O, I, O, O]
    case 6 => [I, I, I, O, O]
    case _ => [O, I, I, O, O]
  }

  lemma LowMultiples(mask: nat, i: nat)
    requires mask < 4 && i < 15
    ensures PlainWord(mask)[i] == Multiple(TableQuotient(mask), i)
  {
  }

  lemma HighMultiples(mask: nat, i: nat)
    requires 4 <= mask < 8 && i < 15
    ensures PlainWord(mask)[i] == Multiple(TableQuotient(mask), i)
  {
  }

  lemma LowMasked(mask: nat, i: nat)
    requires mask < 4 && i < 15
    ensures TableWord(mask)[i] == (PlainWord(mask)[i] != FormatMask(i))
  {
  }

  lemma HighMasked(mask: nat, i: nat)
    requires 4 <= mask < 8 && i < 15
    ensures TableWord(mask)[i] == (PlainWord(mask)[i] != FormatMask(i))
  {
  }

  lemma TableMasked(mask: nat, i: nat)
    requires mask < 8 && i < 15
    ensures TableWord(mask)[i] == (PlainWord(mask)[i] != FormatMask(i))
  {
    if mask < 4 { LowMasked(mask, i); } else { HighMasked(mask, i); }
  }

  lemma TableData(mask: nat)
    requires mask < 8
    ensures PlainWord(mask)[10..] == MaskData(mask)
  {
  }

  /** The format words drawn are those of the standard's table. */
  lemma FormatTable(mask: nat)
    requires mask < 8
    ensures MaskedWord(mask) == TableWord(mask)
  {
    hide FormatWord, FormatRemainder, FormatMask, Multiple, PlainWord, TableWord, TableQuotient, MaskData;
    var v := PlainWord(mask);
    forall i | 0 <= i < 15 ensures v[i] == Multiple(TableQuotient(mask), i) {
      if mask < 4 { LowMultiples(mask, i); } else { HighMultiples(mask, i); }
    }
    ReduceMultiple(v, 14, TableQuotient(mask));
    FormatAcceptedIff(v);
    TableData(mask);
    forall i | 0 <= i < 15 ensures Unmask(v)[i] == TableWord(mask)[i] { TableMasked(mask, i); }
  }

  // ---- placement and padding -----------------------------------------------------------------

  /** The first copy runs down column 8 and then left along row 8, over the timing lines; the second runs left along row 8 from
      the right edge and then down column 8 to the bottom. */
  lemma FormatRuns(n: nat, i: nat)
    requires n >= 21 && i < 15
    ensures var p := FirstCopy(i);
      if i < 8 then p.x == 8 && p.y == (if i < 6 then i else i + 1) else p.y == 8 && p.x == (if i == 8 then 7 else 14 - i)
    ensures var p := SecondCopy(n, i); if i < 8 then p.y == 8 && p.x == n - 1 - i else p.x == 8 && p.y == n - 15 + i
  {
  }

  /** The pad codewords are 11101100 and 00010001 in turn. */
  lemma PadMeaning(head: seq<Gf256.Byte>, total: nat, k: nat)
    requires |head| <= k < total
    ensures Bits(Padded(head, total)[k])
         == if (k - |head|) % 2 == 0 then [I, I, I, O, I, I, O, O] else [O, O, O, I, O, O, O, I]
  {
  }

  /** The terminator and the bits that fill its codeword are zeros: four of the one while there is room, and fewer than eight of
      the other. */
  lemma TerminatorMeaning(bits: seq<bool>, capacityBits: nat)
    requires |bits| <= capacityBits && capacityBits % 8 == 0
    ensures var r := Terminated(bits, capacityBits);
      && (forall k :: |bits| <= k < |r| ==> !r[k])
      && (|r| == capacityBits || (|bits| + 4 <= |r| < |bits| + 12))
  {
  }

  // ---- the segment and the sizes -------------------------------------------------------------

  /** A segment opens with the byte mode's indicator 0100 and the number of bytes, high bit first, in 8 bits up to version 9 and
      in 16 from version 10; the bytes follow, each high bit first. */
  lemma SegmentMeaning(payload: seq<Gf256.Byte>, version: nat, k: nat)
    requires 1 <= version <= 10 && k < |payload| < (if version <= 9 then 0x100 else 0x1_0000)
    ensures var s, count := Segment(payload, version), if version <= 9 then 8 else 16;
      && s[..4] == [O, I, O, O] && BitString.Value(s[4..4 + count]) == |payload|
      && s[4 + count + 8 * k..4 + count + 8 * k + 8] == Bits(payload[k])
    ensures Bits(payload[k]) == [payload[k].b7, payload[k].b6, payload[k].b5, payload[k].b4,
                                 payload[k].b3, payload[k].b2, payload[k].b1, payload[k].b0]
  {
    hide Bits, Flatten, BitString.Pow2, BitString.BitsOf, BitString.Value;
    var s, count := Segment(payload, version), if version <= 9 then 8 else 16;
    ModeBits();
    assert s[..4] == BitString.BitsOf(4, 4);
    assert s[4..4 + count] == BitString.BitsOf(|payload|, count);
    WordSizes();
    BitString.ValueOfBits(|payload|, count);
    FlattenAt(payload, k);
    assert s[4 + count..] == Flatten(payload);
    assert s[4 + count + 8 * k..4 + count + 8 * k + 8] == Flatten(payload)[8 * k..8 * k + 8];
    BitOrder(payload[k]);
  }

  lemma ModeBits()
    ensures BitString.BitsOf(4, 4) == [O, I, O, O]
  {
    assert BitString.BitsOf(1, 2) == [O, I];
    assert BitString.BitsOf(2, 3) == [O, I, O];
  }

  lemma WordSizes()
    ensures BitString.Pow2(8) == 0x100 && BitString.Pow2(16) == 0x1_0000
  {
    assert BitString.Pow2(8) == 256;
  }

  lemma BitOrder(b: Gf256.Byte)
    ensures Bits(b) == [b.b7, b.b6, b.b5, b.b4, b.b3, b.b2, b.b1, b.b0]
  {
  }

  lemma {:induction false} FlattenAt(bytes: seq<Gf256.Byte>, k: nat)
    requires k < |bytes|
    ensures Flatten(bytes)[8 * k..8 * k + 8] == Bits(bytes[k])
  {
    hide Bits;
    var n := |bytes| - 1;
    if k < n {
      FlattenAt(bytes[..n], k);
      assert Flatten(bytes)[8 * k..8 * k + 8] == Flatten(bytes[..n])[8 * k..8 * k + 8];
    }
  }

  lemma BlockShape(version: nat)
    requires 1 <= version <= 10
    ensures var i, b := version - 1, BlocksM(version);
      && b.total == [26, 44, 70, 100, 134, 172, 196, 242, 292, 346][i]
      && |b.sizes| == [1, 1, 1, 2, 2, 4, 4, 4, 5, 5][i] && b.ecLen == [10, 16, 26, 18, 24, 16, 18, 22, 22, 26][i]
      && forall j, k :: 0 <= j < k < |b.sizes| ==> b.sizes[j] <= b.sizes[k] <= b.sizes[j] + 1
  {
    hide Sum;
  }

  /** Bytes of payload, blocks, and check codewords of each block at error correction level M; the blocks are as equal as they
      can be, the longer ones last. */
  lemma SizeTable(version: nat)
    requires 1 <= version <= 10
    ensures var i, b := version - 1, BlocksM(version);
      && Capacity(version) == [14, 26, 42, 62, 84, 106, 122, 152, 180, 213][i]
      && |b.sizes| == [1, 1, 1, 2, 2, 4, 4, 4, 5, 5][i] && b.ecLen == [10, 16, 26, 18, 24, 16, 18, 22, 22, 26][i]
      && forall j, k :: 0 <= j < k < |b.sizes| ==> b.sizes[j] <= b.sizes[k] <= b.sizes[j] + 1
  {
    hide Sum;
    BlocksFacts(version);
    BlockShape(version);
  }

  /** Alignment patterns are centred on column and row 6, on the seventh from the far edge, and evenly between. */
  lemma AlignmentMeaning(version: nat)
    requires 1 <= version <= 10
    ensures var a := Alignment(version);
      && |a| == (if version == 1 then 0 else if version < 7 then 2 else 3)
      && (version > 1 ==> a[0] == 6 && a[|a| - 1] == Size(version) - 7)
      && (|a| == 3 ==> a[2] - a[1] == a[1] - a[0])
  {
  }

  /** The field's modulus: the eighth power of x is x^4 + x^3 + x^2 + 1. */
  lemma FieldModulus()
    ensures Power(8) == Gf256.Byte(false, false, false, true, true, true, false, true)
  {
    assert Power(4) == Gf256.Byte(false, false, false, true, false, false, false, false);
  }
}
