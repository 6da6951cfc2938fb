/** The drawing operations on a symbol under construction. */
module QrCode {
  import opened Gf256
  import opened QrStream
  import opened QrSymbol

  /** Value of the fixed pattern at a function module, before the format word is drawn. The later drawing wins:
      format area over alignment over finder over timing. */
  predicate PatternDark(version: nat, x: int, y: int)
    requires 1 <= version <= 10
  {
    var n := Size(version);
    if IsFormat(n, x, y) then x == 8 && y == n - 8
    else if IsAlignment(version, x, y) then AlignmentDark(version, x, y)
    else if IsFinder(n, x, y) then FinderDark(n, x, y)
    else TimingDark(x, y)
  }

  predicate FinderDark(n: nat, x: int, y: int) {
    var d := if Dist(3, n - 4, x, y) <= 4 then Dist(3, n - 4, x, y)
             else if Dist(n - 4, 3, x, y) <= 4 then Dist(n - 4, 3, x, y) else Dist(3, 3, x, y);
    d != 2 && d != 4
  }

  predicate AlignmentDark(version: nat, x: int, y: int)
    requires 1 <= version <= 10
  {
    exists i, j :: 0 <= i < |Alignment(version)| && 0 <= j < |Alignment(version)|
      && AlignmentHit(version, i, j, x, y) && Dist(Alignment(version)[i], Alignment(version)[j], x, y) != 1
  }

  /** `after` is `before` with the modules of `region` set to `value`. */
  ghost predicate Drawn(before: Matrix, after: Matrix, n: nat, region: (int, int) -> bool, value: (int, int) -> bool)
  {
    && IsSquare(before, n) && IsSquare(after, n)
    && forall x, y :: In(n, x, y) ==> At(after, n, x, y) == if region(x, y) then value(x, y) else At(before, n, x, y)
  }

  class Code {
    const version: nat
    const size: nat
    var modules: Matrix
    var reserved: Matrix

    ghost predicate Valid()
      reads this
    {
      1 <= version <= 10 && size == Size(version) && IsSquare(modules, size) && IsSquare(reserved, size)
    }

    constructor (version: nat)
      requires 1 <= version <= 10
      ensures Valid() && this.version == version
      ensures forall x, y :: In(size, x, y) ==> !At(modules, size, x, y) && !At(reserved, size, x, y)
    {
      this.version := version;
      this.size := 17 + 4 * version;
      var n := 17 + 4 * version;
      modules := seq(n, _ => seq(n, _ => false));
      reserved := seq(n, _ => seq(n, _ => false));
    }

    method Set(x: int, y: int, dark: bool)
      requires Valid() && In(size, x, y)
      modifies this
      ensures Valid()
      ensures modules == Put(old(modules), size, x, y, dark)
      ensures reserved == Put(old(reserved), size, x, y, true)
    {
      modules := Put(modules, size, x, y, dark);
      reserved := Put(reserved, size, x, y, true);
    }

    method Finder(cx: int, cy: int)
      requires Valid()
      modifies this
      ensures Valid()
      ensures Drawn(old(modules), modules, size, (x, y) => Dist(cx, cy, x, y) <= 4,
                    (x, y) => Dist(cx, cy, x, y) != 2 && Dist(cx, cy, x, y) != 4)
      ensures Drawn(old(reserved), reserved, size, (x, y) => Dist(cx, cy, x, y) <= 4, (x, y) => true)
    {
      hide Dist, Abs;
      DistBox(cx, cy);
      for dy := -4 to 5
        invariant Valid()
        invariant Drawn(old(modules), modules, size, (x, y) => Before(cx, cy, 4, -4, dy, x, y),
                        (x, y) => Dist(cx, cy, x, y) != 2 && Dist(cx, cy, x, y) != 4)
        invariant Drawn(old(reserved), reserved, size, (x, y) => Before(cx, cy, 4, -4, dy, x, y), (x, y) => true)
      {
        for dx := -4 to 5
          invariant Valid()
          invariant Drawn(old(modules), modules, size,
                          (x, y) => Before(cx, cy, 4, dx, dy, x, y),
                          (x, y) => Dist(cx, cy, x, y) != 2 && Dist(cx, cy, x, y) != 4)
          invariant Drawn(old(reserved), reserved, size,
                          (x, y) => Before(cx, cy, 4, dx, dy, x, y),
                          (x, y) => true)
        {
          var x, y := cx + dx, cy + dy;
          if !(0 <= x < size && 0 <= y < size) {
            continue;
          }
          var dist := if Abs(dx) < Abs(dy) then Abs(dy) else Abs(dx);
          Set(x, y, dist != 2 && dist != 4);
        }
      }
    }

    method AlignmentPattern(cx: int, cy: int)
      requires Valid() && 2 <= cx < size - 2 && 2 <= cy < size - 2
      modifies this
      ensures Valid()
      ensures Drawn(old(modules), modules, size, (x, y) => Dist(cx, cy, x, y) <= 2, (x, y) => Dist(cx, cy, x, y) != 1)
      ensures Drawn(old(reserved), reserved, size, (x, y) => Dist(cx, cy, x, y) <= 2, (x, y) => true)
    {
      hide Dist, Abs;
      DistBox(cx, cy);
      for dy := -2 to 3
        invariant Valid()
        invariant Drawn(old(modules), modules, size, (x, y) => Before(cx, cy, 2, -2, dy, x, y),
                        (x, y) => Dist(cx, cy, x, y) != 1)
        invariant Drawn(old(reserved), reserved, size, (x, y) => Before(cx, cy, 2, -2, dy, x, y), (x, y) => true)
      {
        for dx := -2 to 3
          invariant Valid()
          invariant Drawn(old(modules), modules, size,
                          (x, y) => Before(cx, cy, 2, dx, dy, x, y),
                          (x, y) => Dist(cx, cy, x, y) != 1)
          invariant Drawn(old(reserved), reserved, size,
                          (x, y) => Before(cx, cy, 2, dx, dy, x, y),
                          (x, y) => true)
        {
          Set(cx + dx, cy + dy, (if Abs(dx) < Abs(dy) then Abs(dy) else Abs(dx)) != 1);
        }
      }
    }

    method TimingPatterns()
      requires Valid()
      modifies this
      ensures Valid()
      ensures Drawn(old(modules), modules, size, (x, y) => IsTiming(x, y), (x, y) => TimingDark(x, y))
      ensures Drawn(old(reserved), reserved, size, (x, y) => IsTiming(x, y), (x, y) => true)
    {
      for i := 0 to size
        invariant Valid()
        invariant Drawn(old(modules), modules, size, (x, y) => (x == 6 && y < i) || (y == 6 && x < i),
                        (x, y) => TimingDark(x, y))
        invariant Drawn(old(reserved), reserved, size, (x, y) => (x == 6 && y < i) || (y == 6 && x < i), (x, y) => true)
      {
        Set(6, i, i % 2 == 0);
        Set(i, 6, i % 2 == 0);
      }
    }

    /** Every pattern of the table except those a finder already covers. */
    method AlignmentPatterns()
      requires Valid()
      modifies this
      ensures Valid()
      ensures Drawn(old(modules), modules, size, (x, y) => 1 <= version <= 10 && IsAlignment(version, x, y),
                    (x, y) => 1 <= version <= 10 && AlignmentDark(version, x, y))
      ensures Drawn(old(reserved), reserved, size, (x, y) => 1 <= version <= 10 && IsAlignment(version, x, y), (x, y) => true)
    {
      hide HitBefore, AlignmentDark, IsAlignment, Dist, HitsDrawn;
      ghost var shown, marked := modules, reserved;
      var centers := Alignment(version);
      AlignmentInside(version);
      HitsNone(shown, size, version, false);
      HitsNone(marked, size, version, true);
      for j := 0 to |centers|
        invariant Valid() && HitsDrawn(shown, modules, size, version, 0, j, false)
        invariant HitsDrawn(marked, reserved, size, version, 0, j, true)
      {
        for i := 0 to |centers|
          invariant Valid() && HitsDrawn(shown, modules, size, version, i, j, false)
          invariant HitsDrawn(marked, reserved, size, version, i, j, true)
        {
          var cx, cy := centers[i], centers[j];
          ghost var m, r := modules, reserved;
          if (cx == 6 && cy == 6) || (cx == 6 && cy == size - 7) || (cx == size - 7 && cy == 6) {
            HitsSkip(shown, m, size, version, i, j, false);
            HitsSkip(marked, r, size, version, i, j, true);
            continue;
          }
          AlignmentPattern(cx, cy);
          HitsMore(shown, m, modules, size, version, i, j, false);
          HitsMore(marked, r, reserved, size, version, i, j, true);
        }
        HitsRow(shown, modules, size, version, j, false);
        HitsRow(marked, reserved, size, version, j, true);
      }
      HitsAll(shown, modules, size, version, false);
      HitsAll(marked, reserved, size, version, true);
    }

    /** Reserves the two copies of the format word; the word itself is drawn last. */
    method ReserveFormat()
      requires Valid()
      modifies this
      ensures Valid()
      ensures Drawn(old(modules), modules, size, (x, y) => IsFormat(size, x, y), (x, y) => x == 8 && y == size - 8)
      ensures Drawn(old(reserved), reserved, size, (x, y) => IsFormat(size, x, y), (x, y) => true)
    {
      hide IsFormat, NearCorner, FarEdges, Put, CornerDrawn, EdgesDrawn;
      SizeIs();
      ghost var shown, marked := modules, reserved;
      EdgesBegin(shown, size, false);
      EdgesBegin(marked, size, true);
      for i := 0 to 9
        invariant Valid() && CornerDrawn(shown, modules, size, i, false) && CornerDrawn(marked, reserved, size, i, true)
      {
        CornerPut(shown, modules, size, i, false);
        CornerPut(marked, reserved, size, i, true);
        if i != 6 {
          Set(8, i, false);
          Set(i, 8, false);
        }
      }
      EdgesStart(shown, modules, size, false);
      EdgesStart(marked, reserved, size, true);
      for i := 0 to 8
        invariant Valid() && EdgesDrawn(shown, modules, size, i, false) && EdgesDrawn(marked, reserved, size, i, true)
      {
        EdgesPut(shown, modules, size, i, false);
        EdgesPut(marked, reserved, size, i, true);
        Set(8, size - 1 - i, false);
        Set(size - 1 - i, 8, false);
      }
      EdgesDone(shown, modules, size, false);
      EdgesDone(marked, reserved, size, true);
      Set(8, size - 8, true);
    }

    /** Draws the fixed patterns and marks every module they, or the format word, occupy. */
    method DrawFunctionPatterns()
      requires Valid()
      modifies this
      ensures Valid()
      ensures forall x, y :: In(size, x, y) ==>
                At(modules, size, x, y)
                == if IsFunction(version, x, y) then PatternDark(version, x, y) else At(old(modules), size, x, y)
      ensures forall x, y :: In(size, x, y) ==>
                At(reserved, size, x, y) == (IsFunction(version, x, y) || At(old(reserved), size, x, y))
    {
      hide Dist, IsAlignment, AlignmentDark, TimingDark, IsFormat;
      var n := size;
      TimingPatterns();
      Finder(3, 3);
      Finder(n - 4, 3);
      Finder(3, n - 4);
      AlignmentPatterns();
      ReserveFormat();
    }

    /** Writes the codeword bits along the walk. Fails, with a partly drawn symbol, when they do not all fit. */
    method DrawCodewords(data: seq<Byte>) returns (ok: bool)
      requires Valid() && ReservedIsFunction(version, size, reserved)
      modifies this
      ensures Valid() && reserved == old(reserved)
      ensures ok <==> 8 * |data| <= |DataPath(version)|
      ensures ok ==> forall i :: 0 <= i < 8 * |data| ==> AtPos(modules, size, DataPath(version)[i]) == Flatten(data)[i]
      ensures ok ==> forall i :: 8 * |data| <= i < |DataPath(version)| ==>
                AtPos(modules, size, DataPath(version)[i]) == AtPos(old(modules), size, DataPath(version)[i])
      ensures forall x, y :: In(size, x, y) && Pos(x, y) !in DataPath(version) ==>
                At(modules, size, x, y) == At(old(modules), size, x, y)
    {
      hide Walk, FreeOf, Column, ColumnAt, Flatten, Bits, DataPath, Drawing, WalkState, ColumnState, ReservedIsFunction,
           IsSquare, Size, Free;
      SizeIs();
      var n := size;
      ghost var was, w, bits := modules, Walk(n, n - 1), Flatten(data);
      ghost var k: nat := 0;
      DrawStart(version, was, n, bits);
      var index := 0;
      var totalBits := |data| * 8;
      var right: int := n - 1;
      while right >= 1
        invariant Valid() && reserved == old(reserved) && right < n
        invariant WalkState(version, n, w, k, right)
        invariant Drawing(version, was, modules, n, w, bits, k, index)
        decreases right
      {
        if right == 6 {
          right := 5;
        }
        WalkColumn(version, n, w, k, right);
        for vertical := 0 to n
          invariant Valid() && reserved == old(reserved)
          invariant ColumnState(version, n, w, k, right, 2 * vertical)
          invariant Drawing(version, was, modules, n, w, bits, k, index)
        {
          for j := 0 to 2
            invariant Valid() && reserved == old(reserved)
            invariant ColumnState(version, n, w, k, right, 2 * vertical + j)
            invariant Drawing(version, was, modules, n, w, bits, k, index)
          {
            var x := right - j;
            var upward := ((right + 1) / 2) % 2 == 0;
            var y := if upward then n - 1 - vertical else vertical;
            ColumnStep(version, n, w, k, right, 2 * vertical + j);
            ColumnAtIs(n, right, vertical, j);
            WalkInside(version, n, w, k, reserved);
            DrawStep(version, was, modules, n, w, bits, k, index);
            if !reserved[y][x] && index < totalBits {
              FlattenAt(data, index);
              modules := Put(modules, n, x, y, Bits(data[index / 8])[index % 8]);
              index := index + 1;
            }
            k := k + 1;
          }
        }
        ColumnDone(version, n, w, k, right);
        right := right - 2;
      }
      WalkDone(version, n, w, k, right);
      DrawDone(version, was, modules, n, w, bits, k, index);
      ok := index == totalBits;
    }

    /** Flips the free modules the mask selects. */
    method ApplyMask(mask: nat)
      requires Valid()
      modifies this
      ensures Valid() && reserved == old(reserved)
      ensures forall x, y :: In(size, x, y) ==>
                At(modules, size, x, y)
                == (At(old(modules), size, x, y) != (!At(reserved, size, x, y) && Inverts(mask, x, y)))
    {
      hide Inverts;
      for y := 0 to size
        invariant Valid() && reserved == old(reserved)
        invariant forall u, v :: In(size, u, v) ==>
                    At(modules, size, u, v)
                    == (At(old(modules), size, u, v) != (v < y && !At(reserved, size, u, v) && Inverts(mask, u, v)))
      {
        for x := 0 to size
          invariant Valid() && reserved == old(reserved)
          invariant forall u, v :: In(size, u, v) ==>
                      At(modules, size, u, v)
                      == (At(old(modules), size, u, v)
                          != ((v < y || (v == y && u < x)) && !At(reserved, size, u, v) && Inverts(mask, u, v)))
        {
          if At(reserved, size, x, y) {
            continue;
          }
          var invert;
          if mask == 0 {
            invert := (x + y) % 2 == 0;
          } else if mask == 1 {
            invert := y % 2 == 0;
          } else if mask == 2 {
            invert := x % 3 == 0;
          } else if mask == 3 {
            invert := (x + y) % 3 == 0;
          } else if mask == 4 {
            invert := (x / 3 + y / 2) % 2 == 0;
          } else if mask == 5 {
            invert := (x * y) % 2 + (x * y) % 3 == 0;
          } else if mask == 6 {
            invert := ((x * y) % 2 + (x * y) % 3) % 2 == 0;
          } else {
            invert := ((x + y) % 2 + (x * y) % 3) % 2 == 0;
          }
          InvertsIs(mask, x, y);
          if invert {
            modules := Put(modules, size, x, y, !At(modules, size, x, y));
          }
        }
      }
    }

    /** The format word of a mask: data over check bits, with the fixed pattern added. */
    static method FormatBits(mask: nat) returns (bits: seq<bool>)
      requires mask < 8
      ensures bits == MaskedWord(mask)
    {
      hide FormatWord, FormatStep, FormatSteps, MaskData;
      var data := MaskData(mask);
      var rem := data + [false, false, false, false, false];
      StepsStep(rem, 0);
      for i := 0 to 10
        invariant |rem| == 10 && rem == FormatSteps(data + [false, false, false, false, false], i)
      {
        StepsStep(data + [false, false, false, false, false], i);
        rem := FormatStep(rem);
      }
      bits := Unmask(rem + data);
      MaskedWordIs(mask, bits, rem);
    }

    /** Writes both copies of the format word and the dark module. */
    method DrawFormat(mask: nat)
      requires Valid() && mask < 8 && ReservedIsFunction(version, size, reserved)
      modifies this
      ensures Valid() && ReservedIsFunction(version, size, reserved)
      ensures FormatDrawn(old(modules), modules, size, MaskedWord(mask), 15, 15)
      ensures At(modules, size, 8, size - 8)
    {
      hide MaskedWord, FirstCopy, SecondCopy, IsFormat, IsFunction, FormatDrawn, SameReserved, ReservedIsFunction, Put;
      FormatBegin(version, modules, size, MaskedWord(mask), reserved);
      var n := size;
      var bits := FormatBits(mask);
      ghost var was := modules;
      SizeIs();
      CopyPositions(n);
      for i := 0 to 6
        invariant Valid() && FormatDrawn(was, modules, n, bits, i, 0) && SameReserved(version, n, reserved)
      {
        FormatPut(was, modules, n, bits, i, 0, version, reserved);
        Set(8, i, bits[i]);
      }
      FormatPut(was, modules, n, bits, 6, 0, version, reserved);
      Set(8, 7, bits[6]);
      FormatPut(was, modules, n, bits, 7, 0, version, reserved);
      Set(8, 8, bits[7]);
      FormatPut(was, modules, n, bits, 8, 0, version, reserved);
      Set(7, 8, bits[8]);
      for i := 9 to 15
        invariant Valid() && FormatDrawn(was, modules, n, bits, i, 0) && SameReserved(version, n, reserved)
      {
        FormatPut(was, modules, n, bits, i, 0, version, reserved);
        Set(14 - i, 8, bits[i]);
      }
      for i := 0 to 8
        invariant Valid() && FormatDrawn(was, modules, n, bits, 15, i) && SameReserved(version, n, reserved)
      {
        FormatPut(was, modules, n, bits, 15, i, version, reserved);
        Set(n - 1 - i, 8, bits[i]);
      }
      for i := 8 to 15
        invariant Valid() && FormatDrawn(was, modules, n, bits, 15, i) && SameReserved(version, n, reserved)
      {
        FormatPut(was, modules, n, bits, 15, i, version, reserved);
        Set(8, n - 15 + i, bits[i]);
      }
      DarkPut(was, modules, n, bits, version, reserved);
      Set(8, n - 8, true);
      FormatBegin(version, modules, n, bits, reserved);
    }

    lemma SizeIs()
      requires Valid()
      ensures 1 <= version <= 10 && size == Size(version) && size >= 21
      ensures IsSquare(modules, size) && IsSquare(reserved, size)
      ensures |reserved| == size && forall y :: 0 <= y < size ==> |reserved[y]| == size
    {
    }
  }

  lemma InvertsIs(mask: nat, x: nat, y: nat)
    ensures mask == 0 ==> Inverts(mask, x, y) == ((x + y) % 2 == 0)
    ensures mask == 1 ==> Inverts(mask, x, y) == (y % 2 == 0)
    ensures mask == 2 ==> Inverts(mask, x, y) == (x % 3 == 0)
    ensures mask == 3 ==> Inverts(mask, x, y) == ((x + y) % 3 == 0)
    ensures mask == 4 ==> Inverts(mask, x, y) == ((x / 3 + y / 2) % 2 == 0)
    ensures mask == 5 ==> Inverts(mask, x, y) == ((x * y) % 2 + (x * y) % 3 == 0)
    ensures mask == 6 ==> Inverts(mask, x, y) == (((x * y) % 2 + (x * y) % 3) % 2 == 0)
    ensures mask >= 7 ==> Inverts(mask, x, y) == (((x + y) % 2 + (x * y) % 3) % 2 == 0)
  {
  }

  // ---- the format word on the symbol ---------------------------------------------------------

  /** Level M has level bits 00, above the three bits of the mask. */
  function MaskData(mask: nat): (d: seq<bool>)
    ensures |d| == 5
  {
    [mask % 2 == 1, mask / 2 % 2 == 1, mask / 4 % 2 == 1, false, false]
  }

  function MaskedWord(mask: nat): (w: seq<bool>)
    ensures |w| == 15
  {
    Unmask(FormatWord(MaskData(mask)))
  }

  lemma StepsStep(s: seq<bool>, i: nat)
    requires |s| == 10
    ensures FormatSteps(s, 0) == s && FormatSteps(s, i + 1) == FormatStep(FormatSteps(s, i))
  {
  }

  lemma MaskedWordIs(mask: nat, bits: seq<bool>, rem: seq<bool>)
    requires |rem| == 10 && rem == FormatSteps(MaskData(mask) + [false, false, false, false, false], 10)
    requires bits == Unmask(rem + MaskData(mask))
    ensures bits == MaskedWord(mask)
  {
    hide FormatSteps;
  }

  function FirstCopy(i: nat): Pos
    requires i < 15
  {
    if i < 6 then Pos(8, i) else if i == 6 then Pos(8, 7) else if i == 7 then Pos(8, 8)
    else if i == 8 then Pos(7, 8) else Pos(14 - i, 8)
  }

  function SecondCopy(n: nat, i: nat): Pos
    requires i < 15
  {
    if i < 8 then Pos(n - 1 - i, 8) else Pos(8, n - 15 + i)
  }

  /** The first a bits of one copy and b of the other are drawn, and nothing outside the format area changed. */
  ghost predicate FormatDrawn(before: Matrix, after: Matrix, n: nat, word: seq<bool>, a: nat, b: nat)
  {
    && IsSquare(before, n) && IsSquare(after, n) && |word| == 15 && a <= 15 && b <= 15 && n >= 21
    && (forall i :: 0 <= i < a ==> AtPos(after, n, FirstCopy(i)) == word[i])
    && (forall i :: 0 <= i < b ==> AtPos(after, n, SecondCopy(n, i)) == word[i])
    && (forall x, y :: In(n, x, y) && !IsFormat(n, x, y) ==> At(after, n, x, y) == At(before, n, x, y))
  }

  ghost predicate SameReserved(version: nat, n: nat, reserved: Matrix)
  {
    1 <= version <= 10 && n == Size(version) && ReservedIsFunction(version, n, reserved)
  }

  /** The thirty places of the two copies and the dark module are distinct format modules. */
  lemma FormatPlaces(n: nat)
    requires n >= 21
    ensures forall i :: 0 <= i < 15 ==> IsFormat(n, FirstCopy(i).x, FirstCopy(i).y) && In(n, FirstCopy(i).x, FirstCopy(i).y)
    ensures forall i :: 0 <= i < 15 ==>
              IsFormat(n, SecondCopy(n, i).x, SecondCopy(n, i).y) && In(n, SecondCopy(n, i).x, SecondCopy(n, i).y)
    ensures forall i, j :: 0 <= i < j < 15 ==> FirstCopy(i) != FirstCopy(j) && SecondCopy(n, i) != SecondCopy(n, j)
    ensures forall i, j :: 0 <= i < 15 && 0 <= j < 15 ==> FirstCopy(i) != SecondCopy(n, j)
    ensures IsFormat(n, 8, n - 8) && In(n, 8, n - 8)
    ensures forall i :: 0 <= i < 15 ==> FirstCopy(i) != Pos(8, n - 8) && SecondCopy(n, i) != Pos(8, n - 8)
  {
  }

  lemma CopyPositions(n: nat)
    ensures forall i :: 0 <= i < 6 ==> FirstCopy(i) == Pos(8, i)
    ensures FirstCopy(6) == Pos(8, 7) && FirstCopy(7) == Pos(8, 8) && FirstCopy(8) == Pos(7, 8)
    ensures forall i :: 9 <= i < 15 ==> FirstCopy(i) == Pos(14 - i, 8)
    ensures forall i :: 0 <= i < 8 ==> SecondCopy(n, i) == Pos(n - 1 - i, 8)
    ensures forall i :: 8 <= i < 15 ==> SecondCopy(n, i) == Pos(8, n - 15 + i)
  {
  }

  lemma FormatBegin(version: nat, m: Matrix, n: nat, word: seq<bool>, reserved: Matrix)
    requires 1 <= version <= 10 && n == Size(version) && IsSquare(m, n) && |word| == 15
    ensures FormatDrawn(m, m, n, word, 0, 0)
    ensures ReservedIsFunction(version, n, reserved) <==> SameReserved(version, n, reserved)
  {
  }

  lemma ReservedPut(version: nat, n: nat, reserved: Matrix, p: Pos)
    requires SameReserved(version, n, reserved) && In(n, p.x, p.y) && IsFormat(n, p.x, p.y)
    ensures SameReserved(version, n, Put(reserved, n, p.x, p.y, true))
  {
    hide IsFormat, IsAlignment, IsFinder, IsTiming;
  }

  /** Drawing the next bit of the first copy, or of the second once the first is complete. */
  lemma FormatPut(before: Matrix, m: Matrix, n: nat, word: seq<bool>, a: nat, b: nat, version: nat, reserved: Matrix)
    requires FormatDrawn(before, m, n, word, a, b) && SameReserved(version, n, reserved)
    requires (a < 15 && b == 0) || (a == 15 && b < 15)
    ensures IsSquare(m, n) && IsSquare(reserved, n)
    ensures a < 15 ==> var p := FirstCopy(a);
              && In(n, p.x, p.y) && FormatDrawn(before, Put(m, n, p.x, p.y, word[a]), n, word, a + 1, b)
              && SameReserved(version, n, Put(reserved, n, p.x, p.y, true))
    ensures a == 15 ==> var p := SecondCopy(n, b);
              && In(n, p.x, p.y) && FormatDrawn(before, Put(m, n, p.x, p.y, word[b]), n, word, a, b + 1)
              && SameReserved(version, n, Put(reserved, n, p.x, p.y, true))
  {
    FormatPlaces(n);
    hide FirstCopy, SecondCopy, IsFormat, Put;
    if a < 15 {
      ReservedPut(version, n, reserved, FirstCopy(a));
      FormatPutFirst(before, m, n, word, a);
    } else {
      ReservedPut(version, n, reserved, SecondCopy(n, b));
      FormatPutSecond(before, m, n, word, b);
    }
  }

  lemma FormatPutFirst(before: Matrix, m: Matrix, n: nat, word: seq<bool>, a: nat)
    requires FormatDrawn(before, m, n, word, a, 0) && a < 15
    requires In(n, FirstCopy(a).x, FirstCopy(a).y)
    ensures FormatDrawn(before, Put(m, n, FirstCopy(a).x, FirstCopy(a).y, word[a]), n, word, a + 1, 0)
  {
    hide FirstCopy, SecondCopy, IsFormat;
    FormatPlaces(n);
  }

  lemma FormatPutSecond(before: Matrix, m: Matrix, n: nat, word: seq<bool>, b: nat)
    requires FormatDrawn(before, m, n, word, 15, b) && b < 15
    requires In(n, SecondCopy(n, b).x, SecondCopy(n, b).y)
    ensures FormatDrawn(before, Put(m, n, SecondCopy(n, b).x, SecondCopy(n, b).y, word[b]), n, word, 15, b + 1)
  {
    hide FirstCopy, SecondCopy, IsFormat;
    FormatPlaces(n);
  }

  lemma DarkPut(before: Matrix, m: Matrix, n: nat, word: seq<bool>, version: nat, reserved: Matrix)
    requires FormatDrawn(before, m, n, word, 15, 15) && SameReserved(version, n, reserved)
    ensures IsSquare(m, n) && IsSquare(reserved, n) && In(n, 8, n - 8)
    ensures FormatDrawn(before, Put(m, n, 8, n - 8, true), n, word, 15, 15)
    ensures SameReserved(version, n, Put(reserved, n, 8, n - 8, true))
  {
    hide FirstCopy, SecondCopy, IsFormat, IsAlignment, IsFinder;
    FormatPlaces(n);
  }

  /** Drawing has visited k positions of the walk and written the bits below `index`. */
  ghost predicate Drawing(version: nat, before: Matrix, after: Matrix, n: nat, w: seq<Pos>, bits: seq<bool>, k: nat,
                          index: nat)
  {
    && 1 <= version <= 10 && n == Size(version) && w == Walk(n, n - 1) && k <= |w|
    && index == Least(|bits|, |FreeOf(version, w[..k])|)
    && Written(before, after, n, DataPath(version), bits, index)
  }

  lemma DrawStart(version: nat, before: Matrix, n: nat, bits: seq<bool>)
    requires 1 <= version <= 10 && n == Size(version) && IsSquare(before, n)
    ensures Drawing(version, before, before, n, Walk(n, n - 1), bits, 0, 0)
    ensures WalkState(version, n, Walk(n, n - 1), 0, n - 1)
  {
    hide Walk;
  }

  lemma WalkInside(version: nat, n: nat, w: seq<Pos>, k: nat, reserved: Matrix)
    requires 1 <= version <= 10 && n == Size(version) && w == Walk(n, n - 1) && k < |w|
    requires ReservedIsFunction(version, n, reserved)
    ensures In(n, w[k].x, w[k].y) && 0 <= w[k].x < n && 0 <= w[k].y < n
    ensures |reserved| == n && |reserved[w[k].y]| == n
    ensures reserved[w[k].y][w[k].x] == !Free(version, w[k])
  {
    hide Walk, IsFunction;
    WalkNoRepeat(n, n - 1);
    assert At(reserved, n, w[k].x, w[k].y) == IsFunction(version, w[k].x, w[k].y);
  }

  lemma ColumnAtIs(n: nat, right: int, vertical: nat, j: nat)
    requires j < 2
    ensures ColumnAt(n, right, 2 * vertical + j)
         == Pos(right - j, if ((right + 1) / 2) % 2 == 0 then n - 1 - vertical else vertical)
  {
  }

  /** Visiting position k: a free one takes the next bit, if any is left. */
  lemma DrawStep(version: nat, before: Matrix, m: Matrix, n: nat, w: seq<Pos>, bits: seq<bool>, k: nat, index: nat)
    requires k < |w| && Drawing(version, before, m, n, w, bits, k, index)
    requires In(n, w[k].x, w[k].y)
    ensures IsSquare(m, n)
    ensures if Free(version, w[k]) && index < |bits|
            then Drawing(version, before, Put(m, n, w[k].x, w[k].y, bits[index]), n, w, bits, k + 1, index + 1)
            else Drawing(version, before, m, n, w, bits, k + 1, index)
  {
    hide Walk, FreeOf, Free, DataPath;
    FreeStep(version, w, k);
    PathIsFreeWalk(version);
    if Free(version, w[k]) && index < |bits| {
      DataPathFacts(version);
      WriteNext(before, m, n, DataPath(version), bits, index);
    }
  }

  lemma WriteNext(before: Matrix, m: Matrix, n: nat, path: seq<Pos>, bits: seq<bool>, index: nat)
    requires Written(before, m, n, path, bits, index) && index < |path| && index < |bits|
    requires NoRepeat(path) && In(n, path[index].x, path[index].y)
    ensures Written(before, Put(m, n, path[index].x, path[index].y, bits[index]), n, path, bits, index + 1)
  {
    assert path[..index + 1] == path[..index] + [path[index]];
  }

  lemma DrawDone(version: nat, before: Matrix, after: Matrix, n: nat, w: seq<Pos>, bits: seq<bool>, k: nat, index: nat)
    requires Drawing(version, before, after, n, w, bits, k, index) && w[..k] == w
    ensures index == |bits| <==> |bits| <= |DataPath(version)|
    ensures index == |bits| ==> forall i :: 0 <= i < |bits| ==> AtPos(after, n, DataPath(version)[i]) == bits[i]
    ensures forall i :: |bits| <= i < |DataPath(version)| ==>
              AtPos(after, n, DataPath(version)[i]) == AtPos(before, n, DataPath(version)[i])
    ensures forall x, y :: In(n, x, y) && Pos(x, y) !in DataPath(version) ==> At(after, n, x, y) == At(before, n, x, y)
  {
    hide Walk, FreeOf;
    PathIsFreeWalk(version);
    DataPathFacts(version);
    var path := DataPath(version);
    forall i | |bits| <= i < |path|
      ensures AtPos(after, n, path[i]) == AtPos(before, n, path[i])
    {
      assert forall j :: 0 <= j < index ==> path[..index][j] == path[j] != path[i];
      assert Pos(path[i].x, path[i].y) == path[i];
    }
  }

  function Least(a: nat, b: nat): nat { if a < b then a else b }

  function AtPos(m: Matrix, n: nat, p: Pos): bool
    requires IsSquare(m, n)
  {
    In(n, p.x, p.y) && At(m, n, p.x, p.y)
  }

  ghost predicate ReservedIsFunction(version: nat, n: nat, reserved: Matrix)
    requires 1 <= version <= 10
  {
    IsSquare(reserved, n) && forall x, y :: In(n, x, y) ==> At(reserved, n, x, y) == IsFunction(version, x, y)
  }

  /** The first `count` places of the path hold the first `count` bits; nothing else changed. */
  ghost predicate Written(before: Matrix, after: Matrix, n: nat, path: seq<Pos>, bits: seq<bool>, count: nat)
  {
    && IsSquare(before, n) && IsSquare(after, n) && count <= |path| && count <= |bits|
    && (forall i :: 0 <= i < count ==> AtPos(after, n, path[i]) == bits[i])
    && (forall x, y :: In(n, x, y) && Pos(x, y) !in path[..count] ==> At(after, n, x, y) == At(before, n, x, y))
  }

  /** k positions of the walk w are done and the rest starts at the column with right edge `right`. */
  ghost predicate WalkState(version: nat, n: nat, w: seq<Pos>, k: nat, right: int)
  {
    1 <= version <= 10 && n == Size(version) && w == Walk(n, n - 1) && k <= |w| && w[k..] == Walk(n, right)
  }

  ghost predicate ColumnState(version: nat, n: nat, w: seq<Pos>, k: nat, right: int, step: nat)
  {
    && 1 <= version <= 10 && n == Size(version) && w == Walk(n, n - 1) && k <= |w| && step <= 2 * n
    && w[k..] == Column(n, right, 2 * n)[step..] + Walk(n, right - 2)
  }

  lemma PathIsFreeWalk(version: nat)
    requires 1 <= version <= 10
    ensures DataPath(version) == FreeOf(version, Walk(Size(version), Size(version) - 1))
    ensures WalkState(version, Size(version), Walk(Size(version), Size(version) - 1), 0, Size(version) - 1)
    ensures FreeOf(version, Walk(Size(version), Size(version) - 1)[..0]) == []
  {
  }

  lemma WalkColumn(version: nat, n: nat, w: seq<Pos>, k: nat, right: int)
    requires right >= 1 && right != 6
    requires WalkState(version, n, w, k, right) || (right == 5 && WalkState(version, n, w, k, 6))
    ensures ColumnState(version, n, w, k, right, 0)
  {
    hide Column;
    assert Column(n, right, 2 * n)[0..] == Column(n, right, 2 * n);
  }

  lemma ColumnStep(version: nat, n: nat, w: seq<Pos>, k: nat, right: int, step: nat)
    requires step < 2 * n && ColumnState(version, n, w, k, right, step)
    ensures k < |w| && w[k] == ColumnAt(n, right, step)
    ensures ColumnState(version, n, w, k + 1, right, step + 1)
  {
    hide Column, Walk;
    ColumnElement(n, right, 2 * n, step);
    assert w[k..][0] == ColumnAt(n, right, step);
    assert w[k + 1..] == w[k..][1..];
  }

  lemma ColumnDone(version: nat, n: nat, w: seq<Pos>, k: nat, right: int)
    requires ColumnState(version, n, w, k, right, 2 * n)
    ensures WalkState(version, n, w, k, right - 2)
  {
    hide Column, Walk;
  }

  lemma WalkDone(version: nat, n: nat, w: seq<Pos>, k: nat, right: int)
    requires right < 1 && WalkState(version, n, w, k, right)
    ensures k == |w| && w[..k] == w
  {
  }

  /** One more position of the walk: the free ones so far stay a prefix of the path. */
  lemma FreeStep(version: nat, w: seq<Pos>, k: nat)
    requires 1 <= version <= 10 && k < |w|
    ensures FreeOf(version, w[..k + 1]) == FreeOf(version, w[..k]) + (if Free(version, w[k]) then [w[k]] else [])
    ensures |FreeOf(version, w[..k + 1])| <= |FreeOf(version, w)|
    ensures Free(version, w[k]) ==> FreeOf(version, w)[|FreeOf(version, w[..k])|] == w[k]
  {
    hide Free;
    assert w[..k + 1][..k] == w[..k];
    FreeOfGrows(version, w, k + 1);
  }

  lemma {:induction false} FlattenAt(data: seq<Byte>, i: nat)
    requires i < 8 * |data|
    ensures Flatten(data)[i] == Bits(data[i / 8])[i % 8]
  {
    hide Bits;
    var n := |data| - 1;
    if i < 8 * n {
      FlattenAt(data[..n], i);
    }
  }

  /** The format modules beside the top left finder, columns and rows below i. */
  predicate NearCorner(i: int, x: int, y: int) {
    (x == 8 && 0 <= y < i && y != 6) || (y == 8 && 0 <= x < i && x != 6)
  }

  lemma FormatIsEdges(n: nat)
    requires n >= 21
    ensures forall x, y :: In(n, x, y) ==> (IsFormat(n, x, y) <==> NearCorner(9, x, y) || FarEdges(n, 8, x, y))
  {
  }

  /** The format modules along the other two finders, the last i of each edge. */
  predicate FarEdges(n: nat, i: int, x: int, y: int) {
    (x == 8 && n - i <= y < n) || (y == 8 && n - i <= x < n)
  }

  /** The format modules near the corner, the first i of each line, all have the value v; nothing else changed. */
  ghost predicate CornerDrawn(before: Matrix, after: Matrix, n: nat, i: int, v: bool) {
    && IsSquare(before, n) && IsSquare(after, n) && n >= 21
    && forall x, y :: In(n, x, y) ==> At(after, n, x, y) == if NearCorner(i, x, y) then v else At(before, n, x, y)
  }

  /** So have all of them and the last i of each edge. */
  ghost predicate EdgesDrawn(before: Matrix, after: Matrix, n: nat, i: int, v: bool) {
    && IsSquare(before, n) && IsSquare(after, n) && n >= 21
    && forall x, y :: In(n, x, y) ==>
         At(after, n, x, y) == if NearCorner(9, x, y) || FarEdges(n, i, x, y) then v else At(before, n, x, y)
  }

  /** The dark module is dark whatever the format modules are set to. */
  ghost predicate FormatMarked(before: Matrix, after: Matrix, n: nat, v: bool) {
    && IsSquare(before, n) && IsSquare(after, n)
    && forall x, y :: In(n, x, y) ==>
         At(after, n, x, y) == if IsFormat(n, x, y) then v || (x == 8 && y == n - 8) else At(before, n, x, y)
  }

  lemma EdgesBegin(m: Matrix, n: nat, v: bool)
    requires IsSquare(m, n) && n >= 21
    ensures CornerDrawn(m, m, n, 0, v)
  {
  }

  lemma CornerPut(before: Matrix, m: Matrix, n: nat, i: nat, v: bool)
    requires CornerDrawn(before, m, n, i, v) && i < 9
    ensures CornerDrawn(before, if i == 6 then m else Put(Put(m, n, 8, i, v), n, i, 8, v), n, i + 1, v)
  {
    var next := if i == 6 then m else Put(Put(m, n, 8, i, v), n, i, 8, v);
    forall x, y | In(n, x, y) ensures At(next, n, x, y) == if NearCorner(i + 1, x, y) then v else At(before, n, x, y) {}
  }

  lemma EdgesStart(before: Matrix, m: Matrix, n: nat, v: bool)
    requires CornerDrawn(before, m, n, 9, v)
    ensures EdgesDrawn(before, m, n, 0, v)
  {
  }

  lemma EdgesPut(before: Matrix, m: Matrix, n: nat, i: nat, v: bool)
    requires EdgesDrawn(before, m, n, i, v) && i < 8
    ensures EdgesDrawn(before, Put(Put(m, n, 8, n - 1 - i, v), n, n - 1 - i, 8, v), n, i + 1, v)
  {
    var next := Put(Put(m, n, 8, n - 1 - i, v), n, n - 1 - i, 8, v);
    forall x, y | In(n, x, y)
      ensures At(next, n, x, y) == if NearCorner(9, x, y) || FarEdges(n, i + 1, x, y) then v else At(before, n, x, y)
    {
    }
  }

  lemma EdgesDone(before: Matrix, m: Matrix, n: nat, v: bool)
    requires EdgesDrawn(before, m, n, 8, v)
    ensures FormatMarked(before, Put(m, n, 8, n - 8, true), n, v)
  {
    FormatIsEdges(n);
    hide NearCorner;
    assert IsFormat(n, 8, n - 8);
  }

  /** Place of (x, y) in a scan of the box of radius r around (cx, cy): before column dx of row dy. */
  predicate Before(cx: int, cy: int, r: int, dx: int, dy: int, x: int, y: int) {
    -r <= x - cx <= r && -r <= y - cy && (y - cy < dy || (y - cy == dy && x - cx < dx))
  }

  lemma DistBox(cx: int, cy: int)
    ensures forall x, y :: Dist(cx, cy, x, y) == if Abs(x - cx) < Abs(y - cy) then Abs(y - cy) else Abs(x - cx)
    ensures forall x, y :: Dist(cx, cy, x, y) <= 4 <==> -4 <= x - cx <= 4 && -4 <= y - cy <= 4
    ensures forall x, y :: Dist(cx, cy, x, y) <= 2 <==> -2 <= x - cx <= 2 && -2 <= y - cy <= 2
  {
  }

  predicate TimingDark(x: int, y: int) {
    if x == 6 then y % 2 == 0 else x % 2 == 0
  }

  /** Some pattern before column i of row j, rows first, covers (x, y). */
  ghost predicate HitBefore(version: nat, i: int, j: int, x: int, y: int)
    requires 1 <= version <= 10
  {
    exists a, b :: 0 <= a < |Alignment(version)| && 0 <= b < |Alignment(version)|
      && (b < j || (b == j && a < i)) && AlignmentHit(version, a, b, x, y)
  }

  lemma AlignmentInside(version: nat)
    requires 1 <= version <= 10
    ensures forall i :: 0 <= i < |Alignment(version)| ==> 2 <= Alignment(version)[i] < Size(version) - 2
    ensures forall i, j :: 0 <= i < j < |Alignment(version)| ==> Alignment(version)[i] + 4 < Alignment(version)[j]
  {
  }

  /** Patterns do not overlap. */
  lemma HitUnique(version: nat, i: int, j: int, a: int, b: int, x: int, y: int)
    requires 1 <= version <= 10
    requires 0 <= i < |Alignment(version)| && 0 <= j < |Alignment(version)|
    requires 0 <= a < |Alignment(version)| && 0 <= b < |Alignment(version)|
    requires AlignmentHit(version, i, j, x, y) && AlignmentHit(version, a, b, x, y)
    ensures i == a && j == b
  {
    hide Alignment;
    AlignmentInside(version);
  }

  lemma HitNext(version: nat, i: int, j: int)
    requires 1 <= version <= 10 && 0 <= i < |Alignment(version)| && 0 <= j < |Alignment(version)|
    ensures forall x, y :: HitBefore(version, i + 1, j, x, y) <==>
              HitBefore(version, i, j, x, y) || AlignmentHit(version, i, j, x, y)
    ensures forall x, y :: AlignmentHit(version, i, j, x, y) ==>
              (AlignmentDark(version, x, y) <==> Dist(Alignment(version)[i], Alignment(version)[j], x, y) != 1)
  {
    hide Alignment, AlignmentHit, Dist;
    forall x, y | AlignmentHit(version, i, j, x, y)
      ensures AlignmentDark(version, x, y) <==> Dist(Alignment(version)[i], Alignment(version)[j], x, y) != 1
    {
      if AlignmentDark(version, x, y) {
        var a, b :| 0 <= a < |Alignment(version)| && 0 <= b < |Alignment(version)|
          && AlignmentHit(version, a, b, x, y) && Dist(Alignment(version)[a], Alignment(version)[b], x, y) != 1;
        HitUnique(version, i, j, a, b, x, y);
      }
    }
  }

  /** The patterns before column i of row j stand over what was there. */
  ghost predicate HitsDrawn(before: Matrix, after: Matrix, n: nat, version: nat, i: int, j: int, all: bool) {
    && 1 <= version <= 10 && n == Size(version) && IsSquare(before, n) && IsSquare(after, n)
    && forall x, y :: In(n, x, y) ==>
         At(after, n, x, y)
         == if HitBefore(version, i, j, x, y) then all || AlignmentDark(version, x, y) else At(before, n, x, y)
  }

  lemma HitsNone(m: Matrix, n: nat, version: nat, all: bool)
    requires 1 <= version <= 10 && n == Size(version) && IsSquare(m, n)
    ensures HitsDrawn(m, m, n, version, 0, 0, all)
  {
    hide HitBefore, AlignmentDark, Alignment;
    HitAll(version);
  }

  lemma HitsSkip(before: Matrix, m: Matrix, n: nat, version: nat, i: int, j: int, all: bool)
    requires HitsDrawn(before, m, n, version, i, j, all)
    requires 0 <= i < |Alignment(version)| && 0 <= j < |Alignment(version)|
    requires forall x, y :: !AlignmentHit(version, i, j, x, y)
    ensures HitsDrawn(before, m, n, version, i + 1, j, all)
  {
    hide HitBefore, AlignmentDark, Alignment, AlignmentHit;
    HitNext(version, i, j);
  }

  lemma HitsMore(before: Matrix, m: Matrix, after: Matrix, n: nat, version: nat, i: int, j: int, all: bool)
    requires HitsDrawn(before, m, n, version, i, j, all) && IsSquare(after, n)
    requires 0 <= i < |Alignment(version)| && 0 <= j < |Alignment(version)|
    requires var cx, cy := Alignment(version)[i], Alignment(version)[j];
      && (forall x, y :: AlignmentHit(version, i, j, x, y) <==> Dist(cx, cy, x, y) <= 2)
      && forall x, y :: In(n, x, y) ==>
           At(after, n, x, y) == if Dist(cx, cy, x, y) <= 2 then all || Dist(cx, cy, x, y) != 1 else At(m, n, x, y)
    ensures HitsDrawn(before, after, n, version, i + 1, j, all)
  {
    hide HitBefore, AlignmentDark, Alignment, AlignmentHit, Dist;
    HitNext(version, i, j);
  }

  lemma HitsRow(before: Matrix, m: Matrix, n: nat, version: nat, j: int, all: bool)
    requires 1 <= version <= 10 && HitsDrawn(before, m, n, version, |Alignment(version)|, j, all) && 0 <= j < |Alignment(version)|
    ensures HitsDrawn(before, m, n, version, 0, j + 1, all)
  {
    hide HitBefore, AlignmentDark, Alignment;
    HitRow(version, j);
  }

  lemma HitsAll(before: Matrix, m: Matrix, n: nat, version: nat, all: bool)
    requires 1 <= version <= 10 && HitsDrawn(before, m, n, version, 0, |Alignment(version)|, all)
    ensures forall x, y :: In(n, x, y) ==>
              At(m, n, x, y) == if IsAlignment(version, x, y) then all || AlignmentDark(version, x, y) else At(before, n, x, y)
  {
    hide HitBefore, AlignmentDark, Alignment, IsAlignment;
    HitAll(version);
  }

  lemma HitRow(version: nat, j: int)
    requires 1 <= version <= 10 && 0 <= j < |Alignment(version)|
    ensures forall x, y :: HitBefore(version, |Alignment(version)|, j, x, y) <==> HitBefore(version, 0, j + 1, x, y)
  {
    hide Alignment, AlignmentHit;
  }

  lemma HitAll(version: nat)
    requires 1 <= version <= 10
    ensures forall x, y :: HitBefore(version, 0, |Alignment(version)|, x, y) <==> IsAlignment(version, x, y)
    ensures forall x, y :: !HitBefore(version, 0, 0, x, y)
  {
    hide Alignment, AlignmentHit;
  }
}
