/** What the controls of a report mean on the decoded pad: hats, direction buttons, selector arrays, axes and triggers,
    whatever the other fields of the layout and whatever the pad held before. */
module HidMeaning {
  import BitString
  import opened Bytes
  import opened HidInput
  import opened HidLayout
  import opened Quotients
  import opened Wrappers

  // ---- values --------------------------------------------------------------------------------

  /** Bit k of a value is bit `offset + k` of the report. */
  lemma {:induction false} RawBit(data: seq<Byte>, offset: nat, n: nat, k: nat)
    requires offset + n <= 8 * |data| && k < n
    ensures Raw(data, offset, n) / BitString.Pow2(k) % 2 == 1 <==> BitAt(data, offset + k)
  {
    hide BitAt;
    var front := Raw(data, offset, n - 1);
    RawBound(data, offset, n - 1);
    if k < n - 1 {
      RawBit(data, offset, n - 1, k);
      if BitAt(data, offset + n - 1) { HighBit(front, n - 1, k); }
    } else {
      OwnBit(front, k, BitAt(data, offset + k));
    }
  }

  lemma OwnBit(front: nat, k: nat, on: bool)
    requires front < BitString.Pow2(k)
    ensures (front + if on then BitString.Pow2(k) else 0) / BitString.Pow2(k) % 2 == 1 <==> on
  {
    hide BitString.Pow2;
    if on { DivExact(1, BitString.Pow2(k), front, front + BitString.Pow2(k)); } else { DivExact(0, BitString.Pow2(k), front, front); }
  }

  lemma {:induction false} HighBit(front: nat, n: nat, k: nat)
    requires k < n
    ensures (front + BitString.Pow2(n)) / BitString.Pow2(k) % 2 == front / BitString.Pow2(k) % 2
    decreases n
  {
    Pow2Split(n, k);
    hide BitString.Pow2;
    AddEven(front, BitString.Pow2(k), BitString.Pow2(n - k - 1));
  }

  lemma AddEven(front: nat, p: nat, h: nat)
    requires p > 0
    ensures (front + 2 * h * p) / p % 2 == front / p % 2
  {
    var q, r := front / p, front % p;
    assert front == q * p + r;
    assert (q + 2 * h) * p == q * p + 2 * h * p;
    DivExact(q + 2 * h, p, r, front + 2 * h * p);
  }

  lemma {:induction false} Pow2Split(n: nat, k: nat)
    requires k < n
    ensures BitString.Pow2(n) == 2 * BitString.Pow2(n - k - 1) * BitString.Pow2(k)
    decreases n
  {
    if k > 0 { Pow2Split(n - 1, k - 1); }
  }

  /** A signed value stays within its width, and differs from the raw one by a multiple of it. */
  lemma ValueRange(f: Field, data: seq<Byte>)
    requires Sized(f) && Within(f, data)
    ensures var v: int, raw: int, half: int := Value(f, data), Raw(data, f.offset, f.bits), BitString.Pow2(f.bits - 1);
      if f.minimum < 0 then -half <= v < half && (v == raw || v == raw - 2 * half) else v == raw < 2 * half
  {
    hide Raw;
    RawBound(data, f.offset, f.bits);
    Pow2Doubles(f.bits);
  }

  // ---- hats ----------------------------------------------------------------------------------

  /** The arcs of the circle: each direction holds at its own position and the two beside it, or with four positions at its
      own alone. */
  predicate Towards(position: int, positions: int, button: nat) {
    if positions == 8 then
      || (button == UP && (position + 1) % 8 < 3) || (button == RIGHT && (position + 7) % 8 < 3)
      || (button == DOWN && (position + 5) % 8 < 3) || (button == LEFT && (position + 3) % 8 < 3)
    else if positions == 4 then
      (button == UP && position == 0) || (button == RIGHT && position == 1) || (button == DOWN && position == 2) || (button == LEFT && position == 3)
    else false
  }

  predicate HatPoints(f: Field, data: seq<Byte>, button: nat)
    requires Sized(f) && Within(f, data)
  {
    && !IsNull(f, Value(f, data)) && f.minimum <= Narrow(Value(f, data)) <= f.maximum
    && Towards(Narrow(Value(f, data)) - f.minimum, f.maximum - f.minimum + 1, button)
  }

  lemma MaskTowards(f: Field, v: int, button: nat)
    requires button in {UP, RIGHT, DOWN, LEFT}
    ensures button in HatMask(f, v) <==>
      f.minimum <= v <= f.maximum && Towards(v - f.minimum, f.maximum - f.minimum + 1, button)
  {
  }

  predicate Direction(button: nat) { button == UP || button == RIGHT || button == DOWN || button == LEFT }

  /** Neither arrays nor buttons can be directions. */
  lemma NoDirection(k: nat)
    requires k < BUTTONS
    ensures !Direction(CANONICAL[k])
  {
  }

  lemma HatField(l: Layout, d: Directions, f: Field, data: seq<Byte>, pad: Pad, button: nat)
    requires Sized(f) && Within(f, data) && d.hat && !d.buttons && Direction(button)
    ensures button in ApplyField(l, d, f, data, pad).buttons <==> button in pad.buttons || (IsHat(f) && HatPoints(f, data, button))
  {
    hide Value, IsNull, Scaled, Narrow, FourSticks, CombinedTrigger, ArrayUsage, HatMask, Towards;
    var v := Value(f, data);
    if IsHat(f) { MaskTowards(f, Narrow(v), button); }
    if f.isArray {
      var usage := ArrayUsage(f, Narrow(v), IsNull(f, v));
      if 1 <= usage <= BUTTONS { NoDirection(usage - 1); }
    } else if f.page == 9 && 1 <= f.usage <= BUTTONS {
      NoDirection(f.usage - 1);
    }
  }

  lemma {:induction false} HatFields(l: Layout, d: Directions, fields: seq<Field>, report: nat, data: seq<Byte>, pad: Pad, button: nat)
    requires Decodable(fields, report, data) && d.hat && !d.buttons && Direction(button)
    ensures button in ApplyAll(l, d, fields, report, data, pad).buttons <==>
      button in pad.buttons
      || exists i :: 0 <= i < |fields| && fields[i].report == report && IsHat(fields[i]) && HatPoints(fields[i], data, button)
    decreases |fields|
  {
    hide ApplyField, Sized, Within, HatPoints, IsHat;
    if fields != [] {
      var n := |fields| - 1;
      HatFields(l, d, fields[..n], report, data, pad, button);
      if fields[n].report == report {
        HatField(l, d, fields[n], data, ApplyAll(l, d, fields[..n], report, data, pad), button);
      }
    }
  }

  /** All four direction buttons are in the report. */
  ghost predicate CompletePad(fields: seq<Field>, report: nat) {
    HasPad(fields, report, 0x90) && HasPad(fields, report, 0x91) && HasPad(fields, report, 0x92) && HasPad(fields, report, 0x93)
  }

  ghost predicate HasPad(fields: seq<Field>, report: nat, usage: nat) {
    exists i :: 0 <= i < |fields| && fields[i].report == report && IsDpad(fields[i]) && fields[i].usage == usage
  }

  /** The hat counts exactly if there is one and the direction buttons do not replace it. */
  lemma DirectionsAre(fields: seq<Field>, report: nat)
    ensures var d := DirectionsOf(fields, report);
      && (d.hat <==> HasHat(fields, report) && !CompletePad(fields, report))
      && (d.buttons <==> !HasHat(fields, report) || CompletePad(fields, report))
      && (d.clear <==> HasHat(fields, report) || CompletePad(fields, report))
  {
    hide HasHat;
    var usages := DpadUsages(fields, report);
    forall u: nat ensures u in usages <==> HasPad(fields, report, u) {}
    if CompletePad(fields, report) { assert usages == {0x90, 0x91, 0x92, 0x93}; }
  }

  lemma TriggersOnly(l: Layout, pad: Pad)
    ensures DigitalTriggers(l, pad).buttons == pad.buttons
  {
    hide FourSticks, CombinedTrigger;
  }

  lemma ClearedButtons(l: Layout, report: nat, pad: Pad, button: nat)
    ensures Direction(button) && DirectionsOf(l.fields, report).clear ==> button !in Cleared(l, report, pad).buttons
  {
    hide ArrayMask, DirectionsOf;
  }

  /** Main result: while the hat counts, a direction is down exactly if a hat of the report points to it, through the arcs of
      the circle; out of range or null it points nowhere. */
  lemma HatMeaning(l: Layout, report: nat, data: seq<Byte>, pad: Pad, button: nat)
    requires Decodable(l.fields, report, data) && Direction(button)
    requires HasHat(l.fields, report) && !CompletePad(l.fields, report)
    ensures button in Decoded(l, report, data, pad).buttons <==>
      exists i :: 0 <= i < |l.fields| && l.fields[i].report == report && IsHat(l.fields[i]) && HatPoints(l.fields[i], data, button)
  {
    hide ApplyAll, Cleared, DirectionsOf, CompletePad, DigitalTriggers, HatPoints, Direction, IsHat, Sized, Within;
    DirectionsAre(l.fields, report);
    var d, start := DirectionsOf(l.fields, report), Cleared(l, report, pad);
    ClearedButtons(l, report, pad, button);
    HatFields(l, d, l.fields, report, data, start, button);
    TriggersOnly(l, ApplyAll(l, d, l.fields, report, data, start));
    assert Addressed(l.fields, report);
  }

  /** The four usages and the directions they stand for. */
  predicate DpadFor(f: Field, button: nat) {
    && !f.isArray && f.page == 1
    && ((f.usage == 0x90 && button == UP) || (f.usage == 0x91 && button == DOWN) || (f.usage == 0x92 && button == RIGHT)
        || (f.usage == 0x93 && button == LEFT))
  }

  predicate On(f: Field, data: seq<Byte>)
    requires Sized(f) && Within(f, data)
  {
    !IsNull(f, Value(f, data)) && Value(f, data) != 0
  }

  lemma DpadField(l: Layout, d: Directions, f: Field, data: seq<Byte>, pad: Pad, button: nat)
    requires Sized(f) && Within(f, data) && !d.hat && d.buttons && Direction(button)
    ensures button in ApplyField(l, d, f, data, pad).buttons <==> if DpadFor(f, button) then On(f, data) else button in pad.buttons
  {
    hide Value, IsNull, Scaled, Narrow, FourSticks, CombinedTrigger, ArrayUsage, HatMask;
    var v := Value(f, data);
    if f.isArray {
      var usage := ArrayUsage(f, Narrow(v), IsNull(f, v));
      if 1 <= usage <= BUTTONS { NoDirection(usage - 1); }
    } else if f.page == 9 && 1 <= f.usage <= BUTTONS {
      NoDirection(f.usage - 1);
    }
  }

  lemma {:induction false} DpadFields(l: Layout, d: Directions, fields: seq<Field>, report: nat, data: seq<Byte>, pad: Pad, k: nat, button: nat)
    requires Decodable(fields, report, data) && !d.hat && d.buttons && Direction(button)
    requires k < |fields| && fields[k].report == report && DpadFor(fields[k], button)
    requires forall j :: k < j < |fields| && fields[j].report == report ==> !DpadFor(fields[j], button)
    ensures button in ApplyAll(l, d, fields, report, data, pad).buttons <==> On(fields[k], data)
    decreases |fields|
  {
    hide ApplyField, Sized, Within, DpadFor, On;
    var n := |fields| - 1;
    if fields[n].report == report { DpadField(l, d, fields[n], data, ApplyAll(l, d, fields[..n], report, data, pad), button); }
    if k < n { DpadFields(l, d, fields[..n], report, data, pad, k, button); }
  }

  /** While the direction buttons count, each direction is down exactly if the last button for it is on and not null. */
  lemma DpadMeaning(l: Layout, report: nat, data: seq<Byte>, pad: Pad, k: nat, button: nat)
    requires Decodable(l.fields, report, data) && Direction(button) && k < |l.fields| && l.fields[k].report == report
    requires !HasHat(l.fields, report) || CompletePad(l.fields, report)
    requires DpadFor(l.fields[k], button)
    requires forall j :: k < j < |l.fields| && l.fields[j].report == report ==> !DpadFor(l.fields[j], button)
    ensures button in Decoded(l, report, data, pad).buttons <==> On(l.fields[k], data)
  {
    hide ApplyAll, Cleared, DirectionsOf, CompletePad, DigitalTriggers, DpadFor, Direction, HasHat, On;
    DirectionsAre(l.fields, report);
    var d, start := DirectionsOf(l.fields, report), Cleared(l, report, pad);
    DpadFields(l, d, l.fields, report, data, start, k, button);
    TriggersOnly(l, ApplyAll(l, d, l.fields, report, data, start));
    assert Addressed(l.fields, report);
  }

  // ---- buttons -------------------------------------------------------------------------------

  const CREATE: nat := 0
  const L3: nat := 1
  const R3: nat := 2
  const OPTIONS: nat := 3
  const L1_BUTTON: nat := 10
  const R1_BUTTON: nat := 11
  const TRIANGLE: nat := 12
  const CIRCLE: nat := 13
  const CROSS: nat := 14
  const SQUARE: nat := 15

  /** The first twelve buttons by name; all eighteen are different, and none is a direction. */
  lemma ButtonNames()
    ensures CANONICAL[..12] == [CROSS, CIRCLE, SQUARE, TRIANGLE, L1_BUTTON, R1_BUTTON, L2_BUTTON, R2_BUTTON, CREATE, OPTIONS, L3, R3]
    ensures |CANONICAL| == BUTTONS && forall j, k :: 0 <= j < k < BUTTONS ==> CANONICAL[j] != CANONICAL[k]
    ensures forall k :: 0 <= k < BUTTONS ==> CANONICAL[k] !in {UP, RIGHT, DOWN, LEFT}
  {
  }

  /** A scaled value is nearest to its share of the range in 255 steps. */
  lemma ScaleNearest(f: Field, v: int)
    requires f.minimum < f.maximum && f.minimum <= v <= f.maximum
    ensures var range, at := f.maximum - f.minimum, 255 * (v - f.minimum);
      2 * at - range <= 2 * Scaled(f, v) * range <= 2 * at + range
  {
    var range, n := f.maximum - f.minimum, (v - f.minimum) * 255 + (f.maximum - f.minimum) / 2;
    assert n == n / range * range + n % range && Scaled(f, v) == n / range;
  }

  /** An array whose lowest value is zero keeps zero for none and counts its usages from one; any other counts from its
      lowest value. */
  predicate ArraySelects(f: Field, data: seq<Byte>, u: nat)
    requires Sized(f) && Within(f, data)
  {
    var v := Narrow(Value(f, data));
    && f.isArray && !IsNull(f, Value(f, data)) && f.minimum <= v <= f.maximum && f.arrayUsageMin <= u <= f.arrayUsageMax
    && u == f.arrayUsageMin + v - if f.minimum == 0 then 1 else f.minimum
  }

  lemma ArrayField(l: Layout, d: Directions, f: Field, data: seq<Byte>, pad: Pad, u: nat)
    requires Sized(f) && Within(f, data) && 1 <= u <= BUTTONS && (f.isArray ==> 1 <= f.arrayUsageMin)
    requires !f.isArray && f.page == 9 ==> f.usage != u
    ensures CANONICAL[u - 1] in ApplyField(l, d, f, data, pad).buttons <==>
      CANONICAL[u - 1] in pad.buttons || ArraySelects(f, data, u)
  {
    hide Value, IsNull, Scaled, Narrow, FourSticks, CombinedTrigger, HatMask;
    HatButtons(f, Narrow(Value(f, data)));
    ButtonNames();
  }

  lemma {:induction false} ArrayFields(l: Layout, d: Directions, fields: seq<Field>, report: nat, data: seq<Byte>, pad: Pad, u: nat)
    requires Decodable(fields, report, data) && 1 <= u <= BUTTONS
    requires forall i :: 0 <= i < |fields| && fields[i].report == report ==>
      (fields[i].isArray ==> 1 <= fields[i].arrayUsageMin) && (!fields[i].isArray && fields[i].page == 9 ==> fields[i].usage != u)
    ensures CANONICAL[u - 1] in ApplyAll(l, d, fields, report, data, pad).buttons <==>
      CANONICAL[u - 1] in pad.buttons
      || exists i :: 0 <= i < |fields| && fields[i].report == report && ArraySelects(fields[i], data, u)
    decreases |fields|
  {
    hide ApplyField, Sized, Within, ArraySelects;
    if fields != [] {
      var n := |fields| - 1;
      ArrayFields(l, d, fields[..n], report, data, pad, u);
      if fields[n].report == report {
        ArrayField(l, d, fields[n], data, ApplyAll(l, d, fields[..n], report, data, pad), u);
      }
    }
  }

  lemma {:induction false} ArrayCovers(fields: seq<Field>, report: nat, u: nat)
    requires 1 <= u <= BUTTONS
    ensures CANONICAL[u - 1] in ArrayMask(fields, report) <==>
      exists i :: 0 <= i < |fields| && fields[i].report == report && fields[i].isArray
        && fields[i].arrayUsageMin <= u <= fields[i].arrayUsageMax
    decreases |fields|
  {
    ButtonNames();
    if fields != [] { ArrayCovers(fields[..|fields| - 1], report, u); }
  }

  /** A button that only selector arrays can press is down exactly if one of the report selects it; one that no array covers
      stays as it was. */
  lemma ArrayMeaning(l: Layout, report: nat, data: seq<Byte>, pad: Pad, u: nat)
    requires LayoutOk(l) && Decodable(l.fields, report, data) && Addressed(l.fields, report) && 1 <= u <= BUTTONS
    requires forall i :: 0 <= i < |l.fields| && l.fields[i].report == report && !l.fields[i].isArray && l.fields[i].page == 9 ==>
      l.fields[i].usage != u
    ensures var covered := exists i :: 0 <= i < |l.fields| && l.fields[i].report == report && l.fields[i].isArray
                                         && l.fields[i].arrayUsageMin <= u <= l.fields[i].arrayUsageMax;
      CANONICAL[u - 1] in Decoded(l, report, data, pad).buttons <==>
        if covered then exists i :: 0 <= i < |l.fields| && l.fields[i].report == report && ArraySelects(l.fields[i], data, u)
        else CANONICAL[u - 1] in pad.buttons
  {
    hide ApplyAll, DirectionsOf, DigitalTriggers, ArraySelects, ArrayMask, Sized, Within, Addressed;
    ArrayFacts(l);
    ButtonNames();
    ArrayCovers(l.fields, report, u);
    var d, start := DirectionsOf(l.fields, report), Cleared(l, report, pad);
    ArrayFields(l, d, l.fields, report, data, start, u);
    TriggersOnly(l, ApplyAll(l, d, l.fields, report, data, start));
    SelectsCovered(l, report, data, u);
  }

  lemma ArrayFacts(l: Layout)
    requires LayoutOk(l)
    ensures forall i :: 0 <= i < |l.fields| && l.fields[i].isArray ==> 1 <= l.fields[i].arrayUsageMin
  {
    forall i | 0 <= i < |l.fields| && l.fields[i].isArray ensures 1 <= l.fields[i].arrayUsageMin { assert Claimed(l.fields[i]); }
  }

  lemma SelectsCovered(l: Layout, report: nat, data: seq<Byte>, u: nat)
    requires Decodable(l.fields, report, data)
    ensures (exists i :: 0 <= i < |l.fields| && l.fields[i].report == report && ArraySelects(l.fields[i], data, u)) ==>
      exists i :: 0 <= i < |l.fields| && l.fields[i].report == report && l.fields[i].isArray
        && l.fields[i].arrayUsageMin <= u <= l.fields[i].arrayUsageMax
  {
  }

  // ---- axes and triggers ---------------------------------------------------------------------

  /** Which parts of the pad the generic and simulation axes move: X and Y are the left stick and Rx and Ry the right one;
      then Z and Rz are the triggers, and without Rx and Ry they are the right stick; Z alone beside both sticks is both
      triggers. Steering is the left stick's X, accelerator and throttle pull R2, the brake L2. */
  lemma AxisTable(l: Layout, f: Field)
    requires !f.isArray
    ensures f.page == 1 && f.usage == 0x30 ==> Targets(l, f) == {Lx}
    ensures f.page == 1 && f.usage == 0x31 ==> Targets(l, f) == {Ly}
    ensures f.page == 1 && f.usage == 0x33 ==> Targets(l, f) == {Rx}
    ensures f.page == 1 && f.usage == 0x34 ==> Targets(l, f) == {Ry}
    ensures f.page == 1 && f.usage == 0x32 ==>
      Targets(l, f) == if 3 in l.axes && 4 in l.axes then (if 2 in l.axes && 5 !in l.axes then {L2, R2} else {L2}) else {Rx}
    ensures f.page == 1 && f.usage == 0x35 ==> Targets(l, f) == if 3 in l.axes && 4 in l.axes then {R2} else {Ry}
    ensures f.page == 2 && f.usage in {0xba, 0xc8} ==> Targets(l, f) == {Lx}
    ensures f.page == 2 && f.usage in {0xbb, 0xc4} ==> Targets(l, f) == {R2}
    ensures f.page == 2 && f.usage == 0xc5 ==> Targets(l, f) == {L2}
  {
  }

  /** The layout knows which axes and analog triggers it has. */
  ghost predicate Accurate(l: Layout) {
    && (forall n :: n in l.axes <==> 0 <= n <= 5 && HasControl(l.fields, 1, 0x30 + n))
    && (l.l2Analog <==> HasControl(l.fields, 2, 0xc5))
    && (l.r2Analog <==> HasControl(l.fields, 2, 0xbb) || HasControl(l.fields, 2, 0xc4))
  }

  ghost predicate HasControl(fields: seq<Field>, page: nat, usage: nat) {
    exists i :: 0 <= i < |fields| && !fields[i].isArray && fields[i].page == page && fields[i].usage == usage
  }

  /** The last field of the report that can move a part. */
  ghost predicate Decides(l: Layout, report: nat, k: nat, part: Part) {
    && k < |l.fields| && l.fields[k].report == report && part in Targets(l, l.fields[k])
    && forall j :: k < j < |l.fields| && l.fields[j].report == report ==> part !in Targets(l, l.fields[j])
  }

  predicate Combined(l: Layout, f: Field) { f.page == 1 && f.usage == 0x32 && CombinedTrigger(l) }

  /** An analog trigger is its deciding field scaled through its range, and rests on null. */
  lemma TriggerMeaning(l: Layout, report: nat, data: seq<Byte>, pad: Pad, k: nat, part: Part)
    requires LayoutOk(l) && Decodable(l.fields, report, data) && Accurate(l) && (part == L2 || part == R2) && Decides(l, report, k, part)
    requires !Combined(l, l.fields[k])
    ensures var f := l.fields[k];
      Get(Decoded(l, report, data, pad), part) == if IsNull(f, Value(f, data)) then 0 else Scaled(f, Value(f, data))
  {
    hide Value, IsNull, ApplyAll, Cleared, DirectionsOf, Scaled, HatMask, ArrayUsage;
    var f := l.fields[k];
    var d, start := DirectionsOf(l.fields, report), Cleared(l, report, pad);
    LastFieldDecides(l, d, l.fields, report, data, start, k, part);
    assert Addressed(l.fields, report);
    assert HasControl(l.fields, f.page, f.usage) && Claimed(f);
    if f.page == 2 {
      if part == L2 { assert l.l2Analog; } else { assert l.r2Analog; }
    } else if f.usage == 0x32 {
      assert 0x30 + 2 == f.usage && 2 in l.axes;
    } else {
      assert 0x30 + 5 == f.usage && 5 in l.axes;
    }
  }

  /** How one axis for both triggers is shared out: below the middle it pulls the left, above it the right, each fully at its
      end; around the middle neither, and never both. */
  predicate Shared(axis: int, l2: int, r2: int) {
    && (l2 == 0 || r2 == 0) && (l2 > 0 <==> axis < 123) && (r2 > 0 <==> axis > 133)
    && (axis == 0 ==> l2 == 255) && (axis == 255 ==> r2 == 255)
  }

  function LeftOf(axis: int): int { if axis < 124 then ((123 - axis) * 255 + 61) / 123 else 0 }

  function RightOf(axis: int): int { if axis > 132 then ((axis - 133) * 255 + 61) / 122 else 0 }

  lemma SharedOut(axis: Byte, other: Byte)
    ensures Shared(axis, LeftOf(axis), RightOf(axis))
    ensures axis <= other ==> LeftOf(axis) >= LeftOf(other) && RightOf(axis) <= RightOf(other)
  {
  }

  lemma CombinedMeaning(l: Layout, report: nat, data: seq<Byte>, pad: Pad, k: nat)
    requires Decodable(l.fields, report, data) && Decides(l, report, k, L2) && Decides(l, report, k, R2) && Combined(l, l.fields[k])
    ensures var f, p := l.fields[k], Decoded(l, report, data, pad);
      if IsNull(f, Value(f, data)) then p.l2 == 0 && p.r2 == 0
      else p.l2 == LeftOf(Scaled(f, Value(f, data))) && p.r2 == RightOf(Scaled(f, Value(f, data)))
  {
    hide Value, IsNull, ApplyAll, Cleared, DirectionsOf, Scaled, HatMask, ArrayUsage;
    var d, start := DirectionsOf(l.fields, report), Cleared(l, report, pad);
    LastFieldDecides(l, d, l.fields, report, data, start, k, L2);
    LastFieldDecides(l, d, l.fields, report, data, start, k, R2);
    assert Addressed(l.fields, report);
  }

  /** A trigger without an analog control is fully pulled exactly while its button is down. */
  lemma DigitalMeaning(l: Layout, report: nat, data: seq<Byte>, pad: Pad)
    requires Decodable(l.fields, report, data) && Addressed(l.fields, report)
    ensures var p, four := Decoded(l, report, data, pad), 3 in l.axes && 4 in l.axes;
      && (!l.l2Analog && !(four && 2 in l.axes) ==> p.l2 == if L2_BUTTON in p.buttons then 255 else 0)
      && (!l.r2Analog && !(four && (2 in l.axes || 5 in l.axes)) ==> p.r2 == if R2_BUTTON in p.buttons then 255 else 0)
  {
    hide ApplyAll, Cleared, DirectionsOf;
  }

  // ---- the positional fallback ---------------------------------------------------------------

  /** The only parts a field may move in the fallback. */
  predicate GuessTouches(f: Field, g: Guess, part: Part) {
    || (f.bits == 1 && g.buttons < BUTTONS && part == Button(CANONICAL[g.buttons]))
    || (2 <= f.bits <= 4 && part.Button? && Direction(part.bit))
    || (f.bits >= 8 && g.wide < 6 && part == [Lx, Ly, Rx, Ry, L2, R2][g.wide])
  }

  /** What the fallback makes of one field: the next one-bit field is the next button, a small range points like a hat, and the
      next wide field is the next of both sticks' axes and both triggers. */
  lemma GuessMeaning(f: Field, data: seq<Byte>, g: Guess, part: Part)
    requires Sized(f) && Within(f, data)
    ensures var p, v, small := GuessField(f, data, g).pad, Value(f, data), 2 <= f.bits <= 4 && f.maximum - f.minimum <= 15;
      && (f.bits == 1 && g.buttons < BUTTONS && part == Button(CANONICAL[g.buttons]) ==>
            (Get(p, part) == 1 <==> v != 0 && !(f.nullState && v < f.minimum)))
      && (small && part.Button? && Direction(part.bit) ==>
            (Get(p, part) == 1 <==> Get(g.pad, part) == 1 || (f.minimum <= Narrow(v) <= f.maximum
                                                              && Towards(Narrow(v) - f.minimum, f.maximum - f.minimum + 1, part.bit))))
      && (f.bits >= 8 && g.wide < 6 && part == [Lx, Ly, Rx, Ry, L2, R2][g.wide] ==> Get(p, part) == Scaled(f, v))
      && (!GuessTouches(f, g, part) ==> Get(p, part) == Get(g.pad, part))
  {
    hide Value, Scaled, Narrow, Towards, HatMask;
    var v := Narrow(Value(f, data));
    HatButtons(f, v);
    if part.Button? && Direction(part.bit) { MaskTowards(f, v, part.bit); }
  }
}
