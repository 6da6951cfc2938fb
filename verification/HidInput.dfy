/** Decoding HID input reports with a compiled layout: the bits of each field become buttons, sticks and triggers. */
module HidInput {
  import opened BitString
  import opened Bytes
  import opened HidLayout
  import opened Quotients
  import opened Wrappers

  /** Buttons are bit positions of the pad's button word. */
  datatype Pad = Pad(buttons: set<nat>, lx: Byte, ly: Byte, rx: Byte, ry: Byte, l2: Byte, r2: Byte)

  const UP: nat := 4
  const RIGHT: nat := 5
  const DOWN: nat := 6
  const LEFT: nat := 7
  const L2_BUTTON: nat := 8
  const R2_BUTTON: nat := 9

  /** Buttons 1 to 18 of the Button page, in order. */
  const CANONICAL: seq<nat> := [14, 13, 15, 12, 10, 11, 8, 9, 0, 3, 1, 2, 16, 20, 17, 18, 19, 21]

  const BUTTONS: nat := 18

  // ---- one field -----------------------------------------------------------------------------

  predicate Within(f: Field, data: seq<Byte>) { f.offset + f.bits <= 8 * |data| }

  predicate BitAt(data: seq<Byte>, k: nat)
    requires k < 8 * |data|
  {
    data[k / 8] / Pow2(k % 8) % 2 == 1
  }

  /** The unsigned value of n bits, low bit first. */
  function Raw(data: seq<Byte>, offset: nat, n: nat): nat
    requires offset + n <= 8 * |data|
  {
    if n == 0 then 0 else Raw(data, offset, n - 1) + if BitAt(data, offset + n - 1) then Pow2(n - 1) else 0
  }

  /** Signed if the field's minimum is negative. */
  function Value(f: Field, data: seq<Byte>): int
    requires Within(f, data) && Sized(f)
  {
    var raw := Raw(data, f.offset, f.bits);
    if f.minimum < 0 && raw >= Pow2(f.bits - 1) then raw - Pow2(f.bits) else raw
  }

  lemma {:induction false} RawBound(data: seq<Byte>, offset: nat, n: nat)
    requires offset + n <= 8 * |data|
    ensures Raw(data, offset, n) < Pow2(n)
  {
    if n > 0 {
      RawBound(data, offset, n - 1);
    }
  }

  lemma {:induction false} Pow2Grows(n: nat, m: nat)
    requires n <= m
    ensures Pow2(n) <= Pow2(m)
  {
    if n < m { Pow2Grows(n, m - 1); }
  }

  lemma Pow2Of31()
    ensures Pow2(31) == 0x8000_0000
  {
    assert Pow2(8) == 256;
    assert Pow2(16) == 65536;
    assert Pow2(24) == 0x100_0000;
  }

  lemma Pow2Doubles(n: nat)
    requires n > 0
    ensures Pow2(n) == 2 * Pow2(n - 1)
  {
  }

  /** A field's value fits the 32 bits the program keeps it in. */
  lemma ValueFits(f: Field, data: seq<Byte>)
    requires Within(f, data) && Sized(f)
    ensures -INT32_MAX - 1 <= Value(f, data) < UINT32
    ensures f.minimum < 0 ==> Value(f, data) <= INT32_MAX
  {
    hide Pow2, Raw;
    RawBound(data, f.offset, f.bits);
    Pow2Of31();
    Pow2Grows(f.bits - 1, 31);
    Pow2Doubles(f.bits);
  }

  predicate IsNull(f: Field, value: int) { f.nullState && (value < f.minimum || value > f.maximum) }

  /** The cast to a 32-bit signed value. */
  function Narrow(value: int): int {
    if value > INT32_MAX then value - UINT32 else value
  }

  function HatMask(f: Field, value: int): set<nat> {
    if value < f.minimum || value > f.maximum then {}
    else
      var position, count := value - f.minimum, f.maximum - f.minimum + 1;
      if count == 4 then [{UP}, {RIGHT}, {DOWN}, {LEFT}][position]
      else if count == 8 then
        [{UP}, {UP, RIGHT}, {RIGHT}, {RIGHT, DOWN}, {DOWN}, {DOWN, LEFT}, {LEFT}, {LEFT, UP}][position]
      else {}
  }

  /** The button an array field selects, if any; logical zero may be reserved for none. */
  function ArrayUsage(f: Field, value: int, isNull: bool): (usage: nat)
    ensures usage <= 0xffff
    ensures usage > 0 ==> f.arrayUsageMin <= usage <= f.arrayUsageMax
  {
    if isNull || value < f.minimum || value > f.maximum then 0
    else if f.minimum == 0 && f.arrayUsageMin > 0 && value == 0 then 0
    else
      var first := if f.minimum == 0 && f.arrayUsageMin > 0 then 1 else f.minimum;
      var selected := f.arrayUsageMin + (value - first);
      if selected < f.arrayUsageMin || selected > f.arrayUsageMax || selected > 0xffff then 0 else selected
  }

  /** Position of the value in the field's range, rounded to 0..255. */
  function Scaled(f: Field, value: int): (axis: Byte)
    requires f.minimum < f.maximum
  {
    var range := f.maximum - f.minimum;
    var bounded := if value < f.minimum then f.minimum else if value > f.maximum then f.maximum else value;
    ScaleBound(bounded - f.minimum, range);
    ((bounded - f.minimum) * 255 + range / 2) / range
  }

  lemma ScaleBound(at: nat, range: nat)
    requires at <= range && range > 0
    ensures 0 <= (at * 255 + range / 2) / range <= 255
  {
    var x := at * 255 + range / 2;
    var k := x / range;
    assert x == k * range + x % range;
    MultipleStep(255, k, range);
  }

  // ---- what a scale means --------------------------------------------------------------------

  /** Scaling is monotone, reaches both ends, and puts the middle of a symmetric range at 128. */
  lemma ScaleShape(f: Field, v: int, w: int)
    requires f.minimum < f.maximum
    ensures v <= w ==> Scaled(f, v) <= Scaled(f, w)
    ensures v <= f.minimum ==> Scaled(f, v) == 0
    ensures v >= f.maximum ==> Scaled(f, v) == 255
    ensures v == 0 && f.minimum == -f.maximum ==> Scaled(f, v) == 128
  {
    var range := f.maximum - f.minimum;
    if v <= w {
      var a := if v < f.minimum then f.minimum else if v > f.maximum then f.maximum else v;
      var b := if w < f.minimum then f.minimum else if w > f.maximum then f.maximum else w;
      DivMonotone((a - f.minimum) * 255 + range / 2, (b - f.minimum) * 255 + range / 2, range);
    }
    DivExact(0, range, range / 2, range / 2);
    DivExact(255, range, range / 2, range * 255 + range / 2);
    if v == 0 && f.minimum == -f.maximum {
      assert range / 2 == f.maximum;
      assert f.maximum * 255 + f.maximum == 128 * range;
      DivExact(128, range, 0, 128 * range);
    }
  }

  // ---- one report ----------------------------------------------------------------------------

  predicate IsHat(f: Field) { !f.isArray && f.page == 1 && f.usage == 0x39 }

  predicate IsDpad(f: Field) { !f.isArray && f.page == 1 && 0x90 <= f.usage <= 0x93 }

  function DpadButton(usage: nat): nat {
    if usage == 0x90 then UP else if usage == 0x91 then DOWN else if usage == 0x92 then RIGHT else LEFT
  }

  function ButtonRange(from: nat, upto: nat): set<nat> {
    set k | 0 <= k < BUTTONS && from <= k + 1 <= upto :: CANONICAL[k]
  }

  /** All the buttons the report's selector arrays can set. */
  function ArrayMask(fields: seq<Field>, report: nat): set<nat> {
    if fields == [] then {}
    else
      var last := fields[|fields| - 1];
      ArrayMask(fields[..|fields| - 1], report)
        + if last.report == report && last.isArray then ButtonRange(last.arrayUsageMin, last.arrayUsageMax) else {}
  }

  predicate HasHat(fields: seq<Field>, report: nat) {
    exists i :: 0 <= i < |fields| && fields[i].report == report && IsHat(fields[i])
  }

  function DpadUsages(fields: seq<Field>, report: nat): set<nat> {
    set i | 0 <= i < |fields| && fields[i].report == report && IsDpad(fields[i]) :: fields[i].usage
  }

  /** How a report's direction controls are combined: the hat counts unless a complete set of buttons replaces it. */
  datatype Directions = Directions(hat: bool, buttons: bool, clear: bool)

  function DirectionsOf(fields: seq<Field>, report: nat): Directions {
    var hat, complete := HasHat(fields, report), DpadUsages(fields, report) == {0x90, 0x91, 0x92, 0x93};
    Directions(hat && !complete, !hat || complete, hat || complete)
  }

  function Cleared(l: Layout, report: nat, pad: Pad): Pad {
    var buttons := pad.buttons - ArrayMask(l.fields, report);
    pad.(buttons := if DirectionsOf(l.fields, report).clear then buttons - {UP, DOWN, LEFT, RIGHT} else buttons)
  }

  function SetButton(pad: Pad, button: nat, pressed: bool): Pad {
    pad.(buttons := pad.buttons - {button} + if pressed then {button} else {})
  }

  predicate FourSticks(l: Layout) { 3 in l.axes && 4 in l.axes }

  /** Both triggers folded onto one centred axis. */
  predicate CombinedTrigger(l: Layout) { FourSticks(l) && 2 in l.axes && 5 !in l.axes }

  function AxisField(l: Layout, f: Field, value: int, pad: Pad): Pad
    requires f.minimum < f.maximum
  {
    var isNull := IsNull(f, value);
    var axis := if isNull then 128 else Scaled(f, value);
    var pull := if isNull then 0 else Scaled(f, value);
    if f.page == 2 then
      if f.usage in {0xba, 0xc8} then pad.(lx := axis)
      else if f.usage in {0xbb, 0xc4} then pad.(r2 := pull)
      else if f.usage == 0xc5 then pad.(l2 := pull)
      else pad
    else if f.usage == 0x30 then pad.(lx := axis)
    else if f.usage == 0x31 then pad.(ly := axis)
    else if f.usage == 0x33 then pad.(rx := axis)
    else if f.usage == 0x34 then pad.(ry := axis)
    else if f.usage == 0x32 then
      if CombinedTrigger(l) then
        if isNull then pad.(l2 := 0, r2 := 0)
        else pad.(l2 := if axis < 124 then ((123 - axis) * 255 + 61) / 123 else 0,
                  r2 := if axis > 132 then ((axis - 133) * 255 + 61) / 122 else 0)
      else if FourSticks(l) then pad.(l2 := pull)
      else pad.(rx := axis)
    else if f.usage == 0x35 then
      if FourSticks(l) then pad.(r2 := pull) else pad.(ry := axis)
    else pad
  }

  function ApplyField(l: Layout, d: Directions, f: Field, data: seq<Byte>, pad: Pad): Pad
    requires Sized(f) && Within(f, data)
  {
    var value := Value(f, data);
    var isNull := IsNull(f, value);
    if f.isArray then
      var usage := ArrayUsage(f, Narrow(value), isNull);
      if 1 <= usage <= BUTTONS then pad.(buttons := pad.buttons + {CANONICAL[usage - 1]}) else pad
    else if f.page == 9 then
      if 1 <= f.usage <= BUTTONS then SetButton(pad, CANONICAL[f.usage - 1], !isNull && value != 0) else pad
    else if IsHat(f) then
      if d.hat && !isNull then pad.(buttons := pad.buttons + HatMask(f, Narrow(value))) else pad
    else if IsDpad(f) then
      if d.buttons then SetButton(pad, DpadButton(f.usage), !isNull && value != 0) else pad
    else AxisField(l, f, value, pad)
  }

  predicate Decodable(fields: seq<Field>, report: nat, data: seq<Byte>) {
    forall i :: 0 <= i < |fields| ==> Sized(fields[i]) && (fields[i].report == report ==> Within(fields[i], data))
  }

  function ApplyAll(l: Layout, d: Directions, fields: seq<Field>, report: nat, data: seq<Byte>, pad: Pad): Pad
    requires Decodable(fields, report, data)
  {
    if fields == [] then pad
    else
      var front, last := fields[..|fields| - 1], fields[|fields| - 1];
      var before := ApplyAll(l, d, front, report, data, pad);
      if last.report == report then ApplyField(l, d, last, data, before) else before
  }

  /** Triggers without an analog control follow their buttons. */
  function DigitalTriggers(l: Layout, pad: Pad): Pad {
    var p := if (!FourSticks(l) || 2 !in l.axes) && !l.l2Analog then pad.(l2 := if L2_BUTTON in pad.buttons then 255 else 0)
             else pad;
    if (!FourSticks(l) || 5 !in l.axes) && !CombinedTrigger(l) && !l.r2Analog
    then p.(r2 := if R2_BUTTON in p.buttons then 255 else 0) else p
  }

  predicate Addressed(fields: seq<Field>, report: nat) {
    exists i :: 0 <= i < |fields| && fields[i].report == report
  }

  /** The pad after a report of claimed fields. */
  function Decoded(l: Layout, report: nat, data: seq<Byte>, pad: Pad): Pad
    requires Decodable(l.fields, report, data)
  {
    if !Addressed(l.fields, report) then pad
    else DigitalTriggers(l, ApplyAll(l, DirectionsOf(l.fields, report), l.fields, report, data, Cleared(l, report, pad)))
  }

  // ---- the positional fallback ---------------------------------------------------------------

  datatype Guess = Guess(pad: Pad, wide: nat, buttons: nat)

  function GuessField(f: Field, data: seq<Byte>, g: Guess): Guess
    requires Sized(f) && Within(f, data)
  {
    var value := Value(f, data);
    var span := f.maximum - f.minimum;
    if f.bits == 1 then
      var pressed := value != 0 && !(f.nullState && value < f.minimum);
      g.(pad := if g.buttons < BUTTONS then SetButton(g.pad, CANONICAL[g.buttons], pressed) else g.pad, buttons := g.buttons + 1)
    else if f.bits <= 4 && 1 <= span <= 15 then
      g.(pad := g.pad.(buttons := g.pad.buttons + HatMask(f, Narrow(value))))
    else if f.bits < 8 || span <= 0 then g
    else
      var axis := Scaled(f, value);
      var p := g.pad;
      var moved := if g.wide == 0 then p.(lx := axis) else if g.wide == 1 then p.(ly := axis)
                   else if g.wide == 2 then p.(rx := axis) else if g.wide == 3 then p.(ry := axis)
                   else if g.wide == 4 then p.(l2 := axis) else if g.wide == 5 then p.(r2 := axis) else p;
      g.(pad := moved, wide := g.wide + 1)
  }

  /** Raw fields in descriptor order, until one does not fit the report. */
  function Guessed(raw: seq<Field>, report: nat, data: seq<Byte>, found: bool, g: Guess): (bool, Pad)
    requires forall i :: 0 <= i < |raw| ==> Sized(raw[i])
    decreases |raw|
  {
    if raw == [] then (found, g.pad)
    else if raw[0].report != report then Guessed(raw[1..], report, data, found, g)
    else if !Within(raw[0], data) then (false, g.pad)
    else Guessed(raw[1..], report, data, true, GuessField(raw[0], data, g))
  }

  // ---- reports -------------------------------------------------------------------------------

  function Report(l: Layout, data: seq<Byte>): (nat, seq<Byte>)
    requires data != []
  {
    if l.numbered then (data[0], data[1..]) else (0, data)
  }

  /** Whether the report was understood, and the pad it leaves. */
  function Input(l: Layout, data: seq<Byte>, pad: Pad): (bool, Pad)
    requires forall i :: 0 <= i < |l.fields| ==> Sized(l.fields[i])
    requires forall i :: 0 <= i < |l.raw| ==> Sized(l.raw[i])
  {
    if data == [] then (false, pad)
    else
      var (report, body) := Report(l, data);
      if l.fields == [] then Guessed(l.raw, report, body, false, Guess(pad, 0, 0))
      else if !Decodable(l.fields, report, body) then (false, pad)
      else (Addressed(l.fields, report), Decoded(l, report, body, pad))
  }

  /** With claimed fields a report that is not understood changes nothing. */
  lemma RefusedUnchanged(l: Layout, data: seq<Byte>, pad: Pad)
    requires LayoutOk(l) && l.fields != [] && !Input(l, data, pad).0
    ensures Input(l, data, pad).1 == pad
  {
  }

  // ---- decoding twice ------------------------------------------------------------------------

  datatype Part = Button(bit: nat) | Lx | Ly | Rx | Ry | L2 | R2

  function Get(p: Pad, part: Part): int {
    match part
    case Button(b) => if b in p.buttons then 1 else 0
    case Lx => p.lx
    case Ly => p.ly
    case Rx => p.rx
    case Ry => p.ry
    case L2 => p.l2
    case R2 => p.r2
  }

  /** A part either ends equal whatever it was, or is left alone. */
  ghost predicate Settles(p: Pad, q: Pad, p2: Pad, q2: Pad, part: Part) {
    Get(p2, part) == Get(q2, part) || (Get(p2, part) == Get(p, part) && Get(q2, part) == Get(q, part))
  }

  lemma FieldSettles(l: Layout, d: Directions, f: Field, data: seq<Byte>, p: Pad, q: Pad, part: Part)
    requires Sized(f) && Within(f, data)
    ensures Settles(p, q, ApplyField(l, d, f, data, p), ApplyField(l, d, f, data, q), part)
  {
    hide Value, IsNull, Scaled, HatMask, ArrayUsage, Narrow, FourSticks, CombinedTrigger;
  }

  lemma {:induction false} AllSettle(l: Layout, d: Directions, fields: seq<Field>, report: nat, data: seq<Byte>, p: Pad, q: Pad, part: Part)
    requires Decodable(fields, report, data)
    ensures Settles(p, q, ApplyAll(l, d, fields, report, data, p), ApplyAll(l, d, fields, report, data, q), part)
    decreases |fields|
  {
    hide ApplyField, Get;
    if fields != [] {
      var front, last := fields[..|fields| - 1], fields[|fields| - 1];
      AllSettle(l, d, front, report, data, p, q, part);
      if last.report == report {
        FieldSettles(l, d, last, data, ApplyAll(l, d, front, report, data, p), ApplyAll(l, d, front, report, data, q), part);
      }
    }
  }

  lemma ClearSettles(l: Layout, report: nat, p: Pad, q: Pad, part: Part)
    ensures Settles(p, q, Cleared(l, report, p), Cleared(l, report, q), part)
  {
    hide ArrayMask, DirectionsOf;
  }

  /** Main result: decoding a report a second time changes nothing, whatever the pad held before. */
  lemma DecodeTwice(l: Layout, report: nat, data: seq<Byte>, pad: Pad)
    requires Decodable(l.fields, report, data)
    ensures var once := Decoded(l, report, data, pad); Decoded(l, report, data, once) == once
  {
    hide ApplyAll, Cleared, DirectionsOf, Get;
    if Addressed(l.fields, report) {
      var d := DirectionsOf(l.fields, report);
      var once := Decoded(l, report, data, pad);
      var p, q := Cleared(l, report, pad), Cleared(l, report, once);
      var p2, q2 := ApplyAll(l, d, l.fields, report, data, p), ApplyAll(l, d, l.fields, report, data, q);
      forall part ensures Get(q2, part) == Get(p2, part) || Get(q2, part) == Get(once, part) {
        ClearSettles(l, report, pad, once, part);
        AllSettle(l, d, l.fields, report, data, p, q, part);
      }
      TriggersAgree(l, p2, q2, once);
    }
  }

  lemma TriggersAgree(l: Layout, p2: Pad, q2: Pad, once: Pad)
    requires once == DigitalTriggers(l, p2)
    requires forall part :: Get(q2, part) == Get(p2, part) || Get(q2, part) == Get(once, part)
    ensures DigitalTriggers(l, q2) == once
  {
    hide FourSticks, CombinedTrigger;
    forall b ensures b in q2.buttons <==> b in p2.buttons {
      assert Get(q2, Button(b)) == Get(p2, Button(b)) || Get(q2, Button(b)) == Get(once, Button(b));
    }
    assert q2.buttons == p2.buttons;
    assert Get(q2, Lx) == Get(once, Lx) && Get(q2, Ly) == Get(once, Ly) && Get(q2, Rx) == Get(once, Rx) && Get(q2, Ry) == Get(once, Ry);
    assert Get(q2, L2) == Get(p2, L2) || Get(q2, L2) == Get(once, L2);
    assert Get(q2, R2) == Get(p2, R2) || Get(q2, R2) == Get(once, R2);
  }

  // ---- what a field means --------------------------------------------------------------------

  /** The parts of the pad a field can move. */
  function Targets(l: Layout, f: Field): set<Part> {
    if f.isArray then set k | 0 <= k < BUTTONS && f.arrayUsageMin <= k + 1 <= f.arrayUsageMax :: Button(CANONICAL[k])
    else if f.page == 9 then (if 1 <= f.usage <= BUTTONS then {Button(CANONICAL[f.usage - 1])} else {})
    else if IsHat(f) then {Button(UP), Button(RIGHT), Button(DOWN), Button(LEFT)}
    else if IsDpad(f) then {Button(DpadButton(f.usage))}
    else if f.page == 2 then
      if f.usage in {0xba, 0xc8} then {Lx} else if f.usage in {0xbb, 0xc4} then {R2} else if f.usage == 0xc5 then {L2} else {}
    else if f.usage == 0x30 then {Lx}
    else if f.usage == 0x31 then {Ly}
    else if f.usage == 0x33 then {Rx}
    else if f.usage == 0x34 then {Ry}
    else if f.usage == 0x32 then (if CombinedTrigger(l) then {L2, R2} else if FourSticks(l) then {L2} else {Rx})
    else if f.usage == 0x35 then (if FourSticks(l) then {R2} else {Ry})
    else {}
  }

  lemma FieldFrame(l: Layout, d: Directions, f: Field, data: seq<Byte>, pad: Pad, part: Part)
    requires Sized(f) && Within(f, data) && part !in Targets(l, f)
    ensures Get(ApplyField(l, d, f, data, pad), part) == Get(pad, part)
  {
    hide Value, IsNull, Scaled, Narrow, FourSticks, CombinedTrigger, ArrayUsage, HatMask;
    var value := Value(f, data);
    if f.isArray {
      var usage := ArrayUsage(f, Narrow(value), IsNull(f, value));
      if 1 <= usage <= BUTTONS { assert Button(CANONICAL[usage - 1]) in Targets(l, f); }
    } else if IsHat(f) {
      HatButtons(f, Narrow(value));
    }
  }

  lemma HatButtons(f: Field, value: int)
    ensures HatMask(f, value) <= {UP, RIGHT, DOWN, LEFT}
  {
  }

  /** The last field of a report that can move a part decides it. */
  lemma {:induction false} LastFieldDecides(l: Layout, d: Directions, fields: seq<Field>, report: nat, data: seq<Byte>, pad: Pad, k: nat, part: Part)
    requires Decodable(fields, report, data) && k < |fields| && fields[k].report == report
    requires forall j :: k < j < |fields| && fields[j].report == report ==> part !in Targets(l, fields[j])
    ensures Get(ApplyAll(l, d, fields, report, data, pad), part)
         == Get(ApplyField(l, d, fields[k], data, ApplyAll(l, d, fields[..k], report, data, pad)), part)
    decreases |fields|
  {
    hide ApplyField, Targets, Get, Sized, Within;
    var n := |fields| - 1;
    var front := fields[..n];
    if k < n {
      assert front[..k] == fields[..k];
      LastFieldDecides(l, d, front, report, data, pad, k, part);
      if fields[n].report == report {
        FieldFrame(l, d, fields[n], data, ApplyAll(l, d, front, report, data, pad), part);
      }
    }
  }

  /** Button u of the report is down exactly when the last field that can set it is on and not null. */
  lemma ButtonMeaning(l: Layout, report: nat, data: seq<Byte>, pad: Pad, k: nat)
    requires Decodable(l.fields, report, data) && k < |l.fields| && l.fields[k].report == report
    requires !l.fields[k].isArray && l.fields[k].page == 9 && 1 <= l.fields[k].usage <= BUTTONS
    requires forall j :: k < j < |l.fields| && l.fields[j].report == report ==>
      Button(CANONICAL[l.fields[k].usage - 1]) !in Targets(l, l.fields[j])
    ensures var f := l.fields[k];
      CANONICAL[f.usage - 1] in Decoded(l, report, data, pad).buttons <==> !IsNull(f, Value(f, data)) && Value(f, data) != 0
  {
    hide Value, IsNull, Targets, ApplyAll, Cleared, DirectionsOf;
    var f := l.fields[k];
    var d, start := DirectionsOf(l.fields, report), Cleared(l, report, pad);
    LastFieldDecides(l, d, l.fields, report, data, start, k, Button(CANONICAL[f.usage - 1]));
    assert Addressed(l.fields, report);
  }

  /** A stick axis is the last field for it, scaled through its range; a null value centres it. */
  lemma StickMeaning(l: Layout, report: nat, data: seq<Byte>, pad: Pad, k: nat, part: Part)
    requires Decodable(l.fields, report, data) && k < |l.fields| && l.fields[k].report == report
    requires part in {Lx, Ly, Rx, Ry} && part in Targets(l, l.fields[k])
    requires forall j :: k < j < |l.fields| && l.fields[j].report == report ==> part !in Targets(l, l.fields[j])
    ensures var f := l.fields[k];
      Get(Decoded(l, report, data, pad), part) == if IsNull(f, Value(f, data)) then 128 else Scaled(f, Value(f, data))
  {
    hide Value, IsNull, ApplyAll, Cleared, DirectionsOf, Scaled, CombinedTrigger, FourSticks, HatMask, ArrayUsage;
    var d, start := DirectionsOf(l.fields, report), Cleared(l, report, pad);
    LastFieldDecides(l, d, l.fields, report, data, start, k, part);
    assert Addressed(l.fields, report);
  }

  // ---- when the fallback refuses -------------------------------------------------------------

  predicate AllWithin(raw: seq<Field>, report: nat, data: seq<Byte>) {
    forall i :: 0 <= i < |raw| && raw[i].report == report ==> Within(raw[i], data)
  }

  lemma {:induction false} GuessedRefusal(raw: seq<Field>, report: nat, data: seq<Byte>, found: bool, g: Guess)
    requires forall i :: 0 <= i < |raw| ==> Sized(raw[i])
    ensures AllWithin(raw, report, data) ==>
      (Guessed(raw, report, data, found, g).0 <==> found || Addressed(raw, report))
    ensures AllWithin(raw, report, data) && !Addressed(raw, report) ==> Guessed(raw, report, data, found, g).1 == g.pad
    ensures !AllWithin(raw, report, data) ==> !Guessed(raw, report, data, found, g).0
    decreases |raw|
  {
    hide GuessField;
    if raw != [] {
      var rest := raw[1..];
      assert AllWithin(raw, report, data) ==> AllWithin(rest, report, data);
      assert (raw[0].report == report ==> Within(raw[0], data)) && AllWithin(rest, report, data) ==> AllWithin(raw, report, data) by {
        forall i | 0 < i < |raw| ensures raw[i] == rest[i - 1] {}
      }
      assert Addressed(raw, report) <==> raw[0].report == report || Addressed(rest, report) by {
        forall i | 0 < i < |raw| ensures raw[i] == rest[i - 1] {}
        forall i | 0 <= i < |rest| ensures rest[i] == raw[i + 1] {}
      }
      if raw[0].report != report {
        GuessedRefusal(rest, report, data, found, g);
      } else if Within(raw[0], data) {
        GuessedRefusal(rest, report, data, true, GuessField(raw[0], data, g));
      }
    }
  }

  /** The positional fallback understands a report exactly when it has a field there and the report holds them all;
      a whole report it does not address leaves the pad alone. */
  lemma FallbackIff(l: Layout, data: seq<Byte>, pad: Pad)
    requires LayoutOk(l) && l.fields == [] && data != []
    ensures var (report, body) := Report(l, data);
      && (Input(l, data, pad).0 <==> Addressed(l.raw, report) && AllWithin(l.raw, report, body))
      && (!Input(l, data, pad).0 && AllWithin(l.raw, report, body) ==> Input(l, data, pad).1 == pad)
  {
    var (report, body) := Report(l, data);
    GuessedRefusal(l.raw, report, body, false, Guess(pad, 0, 0));
  }

  /** Whether the fallback lets a field move the pad, after so many wide fields and buttons of the report. */
  predicate Acts(f: Field, data: seq<Byte>, wide: nat, buttons: nat)
    requires Sized(f) && Within(f, data)
  {
    if f.bits == 1 then buttons < BUTTONS
    else if f.bits <= 4 && 1 <= f.maximum - f.minimum <= 15 then HatMask(f, Narrow(Value(f, data))) != {}
    else WideField(f) && wide < 6
  }

  predicate WideField(f: Field) { f.bits >= 8 && f.maximum > f.minimum }

  /** Some field acts before the first one that the report does not hold. */
  predicate ActsBeforeCut(raw: seq<Field>, report: nat, data: seq<Byte>, wide: nat, buttons: nat)
    requires forall i :: 0 <= i < |raw| ==> Sized(raw[i])
    decreases |raw|
  {
    if raw == [] then false
    else if raw[0].report != report then ActsBeforeCut(raw[1..], report, data, wide, buttons)
    else
      && Within(raw[0], data)
      && (|| Acts(raw[0], data, wide, buttons)
          || ActsBeforeCut(raw[1..], report, data, if WideField(raw[0]) then wide + 1 else wide,
                           if raw[0].bits == 1 then buttons + 1 else buttons))
  }

  lemma GuessCounts(f: Field, data: seq<Byte>, p: Pad, wide: nat, buttons: nat)
    requires Sized(f) && Within(f, data)
    ensures var g := GuessField(f, data, Guess(p, wide, buttons));
      && g.wide == (if WideField(f) then wide + 1 else wide)
      && g.buttons == (if f.bits == 1 then buttons + 1 else buttons)
      && (!Acts(f, data, wide, buttons) ==> g.pad == p)
  {
    hide Value, HatMask, Narrow, Scaled;
  }

  /** What an acting field does to one part of the pad does not depend on the pad. */
  lemma ActsOn(f: Field, data: seq<Byte>, wide: nat, buttons: nat) returns (part: Part, value: int)
    requires Sized(f) && Within(f, data) && Acts(f, data, wide, buttons)
    ensures forall p :: Get(GuessField(f, data, Guess(p, wide, buttons)).pad, part) == value
  {
    hide Value, HatMask, Narrow, Scaled;
    var v := Value(f, data);
    if f.bits == 1 {
      part := Button(CANONICAL[buttons]);
      value := if v != 0 && !(f.nullState && v < f.minimum) then 1 else 0;
    } else if f.bits <= 4 && 1 <= f.maximum - f.minimum <= 15 {
      var bit :| bit in HatMask(f, Narrow(v));
      part, value := Button(bit), 1;
    } else {
      part := [Lx, Ly, Rx, Ry, L2, R2][wide];
      value := Scaled(f, v);
    }
  }

  /** The last acting field leaves its part with a value that does not depend on the pad. */
  lemma {:induction false} LastActs(raw: seq<Field>, report: nat, data: seq<Byte>, found: bool, wide: nat, buttons: nat)
    returns (part: Part, value: int)
    requires forall i :: 0 <= i < |raw| ==> Sized(raw[i])
    requires ActsBeforeCut(raw, report, data, wide, buttons)
    ensures forall p :: Get(Guessed(raw, report, data, found, Guess(p, wide, buttons)).1, part) == value
    decreases |raw|
  {
    hide GuessField, Acts, Get;
    if raw[0].report != report {
      part, value := LastActs(raw[1..], report, data, found, wide, buttons);
    } else {
      var nextWide := if WideField(raw[0]) then wide + 1 else wide;
      var nextButtons := if raw[0].bits == 1 then buttons + 1 else buttons;
      var more := ActsBeforeCut(raw[1..], report, data, nextWide, nextButtons);
      if more {
        part, value := LastActs(raw[1..], report, data, true, nextWide, nextButtons);
      } else {
        part, value := ActsOn(raw[0], data, wide, buttons);
      }
      forall p ensures Get(Guessed(raw, report, data, found, Guess(p, wide, buttons)).1, part) == value {
        GuessCounts(raw[0], data, p, wide, buttons);
        var g := GuessField(raw[0], data, Guess(p, wide, buttons));
        assert g == Guess(g.pad, nextWide, nextButtons);
        if !more { NoneActs(raw[1..], report, data, true, nextWide, nextButtons, g.pad); }
      }
    }
  }

  lemma {:induction false} NoneActs(raw: seq<Field>, report: nat, data: seq<Byte>, found: bool, wide: nat, buttons: nat, p: Pad)
    requires forall i :: 0 <= i < |raw| ==> Sized(raw[i])
    requires !ActsBeforeCut(raw, report, data, wide, buttons)
    ensures Guessed(raw, report, data, found, Guess(p, wide, buttons)).1 == p
    decreases |raw|
  {
    hide GuessField, Acts;
    if raw == [] {
    } else if raw[0].report != report {
      NoneActs(raw[1..], report, data, found, wide, buttons, p);
    } else if Within(raw[0], data) {
      GuessCounts(raw[0], data, p, wide, buttons);
      NoneActs(raw[1..], report, data, true, if WideField(raw[0]) then wide + 1 else wide,
               if raw[0].bits == 1 then buttons + 1 else buttons, p);
    }
  }

  /** A pad on which that part has another value. */
  function Other(part: Part, value: int): (p: Pad)
    ensures Get(p, part) != value
  {
    var axis: Byte := if value == 0 then 1 else 0;
    Pad(if part.Button? && value == 0 then {part.bit} else {}, axis, axis, axis, axis, axis, axis)
  }

  /** The fallback leaves every pad alone when it refuses a report exactly if the report holds all its fields, or no
      field before the first missing one acts. */
  lemma FallbackKeepsPadIff(l: Layout, data: seq<Byte>)
    requires LayoutOk(l) && l.fields == [] && data != []
    ensures var (report, body) := Report(l, data);
      (forall pad :: !Input(l, data, pad).0 ==> Input(l, data, pad).1 == pad)
      <==> AllWithin(l.raw, report, body) || !ActsBeforeCut(l.raw, report, body, 0, 0)
  {
    hide LayoutOk, Guessed, AllWithin, ActsBeforeCut, Addressed, Get;
    var (report, body) := Report(l, data);
    LayoutSized(l);
    if AllWithin(l.raw, report, body) {
      forall pad ensures !Input(l, data, pad).0 ==> Input(l, data, pad).1 == pad { FallbackIff(l, data, pad); }
    } else if ActsBeforeCut(l.raw, report, body, 0, 0) {
      var part, value := LastActs(l.raw, report, body, false, 0, 0);
      var pad := Other(part, value);
      FallbackIff(l, data, pad);
      assert Input(l, data, pad).1 == Guessed(l.raw, report, body, false, Guess(pad, 0, 0)).1;
    } else {
      forall pad ensures Input(l, data, pad).1 == pad { NoneActs(l.raw, report, body, false, 0, 0, pad); }
    }
  }

  lemma LayoutSized(l: Layout)
    requires LayoutOk(l)
    ensures forall i :: 0 <= i < |l.raw| ==> Sized(l.raw[i])
    ensures forall i :: 0 <= i < |l.fields| ==> Sized(l.fields[i])
  {
  }

  /** A field of one bit and one of eight, given to no usage. */
  function ShortDescriptor(): seq<Byte> { [0x25, 1, 0x75, 1, 0x95, 1, 0x81, 2, 0x25, 100, 0x75, 8, 0x95, 1, 0x81, 2] }

  function ShortLayout(): Layout {
    Layout([], [Field(0, 0, 0, 0, 1, 0, 0, 1, 0, 0, false, false), Field(1, 0, 0, 0, 8, 0, 0, 100, 0, 0, false, false)],
           false, {}, false, false)
  }

  lemma OneByteItem(data: seq<Byte>, pos: nat, p: Parser, item: Item)
    requires pos + 2 <= |data| && data[pos] % 4 == 1
    requires item == Item(data[pos] / 4 % 4, data[pos] / 16, data[pos + 1], 1) && HidLayout.Apply(p, item).Some?
    ensures Parse(data, pos, p) == Parse(data, pos + 2, HidLayout.Apply(p, item).value)
  {
    hide HidLayout.Apply;
    var payload := data[pos + 1..pos + 2];
    assert payload == [data[pos + 1]] && payload[1..] == [];
    assert LittleEndian(payload) == data[pos + 1] + 256 * LittleEndian(payload[1..]);
  }

  lemma OneField(p: Parser)
    requires p.collections == [] && p.usages == [] && p.usageMin == p.usageMax == 0 && !p.layout.numbered && p.g.report == 0
    requires p.g.count == 1 && 1 <= p.g.bits <= 8 && p.g.maximum > p.g.minimum && p.g.page == 0 && p.offsets[0] <= 100
    requires |p.layout.raw| < MAX_FIELDS
    ensures var f := Field(p.offsets[0], 0, 0, 0, p.g.bits, 0, p.g.minimum, p.g.maximum, 0, 0, false, false);
      HidLayout.Apply(p, Item(0, 8, 2, 1))
      == Some(p.(layout := p.layout.(raw := p.layout.raw + [f]), offsets := p.offsets[0 := p.offsets[0] + p.g.bits]))
  {
    var f := Field(p.offsets[0], 0, 0, 0, p.g.bits, 0, p.g.minimum, p.g.maximum, 0, 0, false, false);
    var l := p.layout.(raw := p.layout.raw + [f]);
    assert AddField(p, p.layout, 2, 0, p.offsets[0]) == Some(l);
    assert AddFields(p, l, 2, 1) == Some(l);
    assert AddFields(p, p.layout, 2, 0) == Some(l);
  }

  function ShortParser(g: Global, raw: seq<Field>, used: nat): Parser {
    var offsets: Offsets := seq(256, _ => 0)[0 := used];
    Parser(g, [], [], offsets, [], 0, 0, Layout([], raw, false, {}, false, false))
  }

  lemma ShortStart()
    ensures Start() == ShortParser(Global(0, 0, 0, 0, 0, 0), [], 0)
  {
    assert seq(256, _ => 0) == seq(256, _ => 0)[0 := 0];
  }

  /** The three settings and the field that takes them. */
  lemma ShortStep(data: seq<Byte>, pos: nat, p: Parser, max: Byte, bits: Byte, q: Parser)
    requires pos + 8 <= |data| && data[pos..pos + 8] == [0x25, max, 0x75, bits, 0x95, 1, 0x81, 2]
    requires p == ShortParser(p.g, p.layout.raw, p.offsets[0]) && p.g.report == p.g.page == p.g.minimum == 0
    requires 1 <= bits <= 8 && max >= 1 && p.offsets[0] <= 100 && |p.layout.raw| < MAX_FIELDS
    requires q == ShortParser(Global(0, bits, 1, 0, 0, max),
                              p.layout.raw + [Field(p.offsets[0], 0, 0, 0, bits, 0, 0, max, 0, 0, false, false)], p.offsets[0] + bits)
    ensures Parse(data, pos, p) == Parse(data, pos + 8, q)
  {
    hide LayoutOf, Parse, HidLayout.Apply;
    var part := data[pos..pos + 8];
    assert part[0] == data[pos] && part[1] == data[pos + 1] && part[2] == data[pos + 2] && part[3] == data[pos + 3];
    assert part[4] == data[pos + 4] && part[5] == data[pos + 5] && part[6] == data[pos + 6] && part[7] == data[pos + 7];
    var b := p.(g := p.g.(maximum := max));
    ShortGlobal(p, Item(1, 2, max, 1), b);
    OneByteItem(data, pos, p, Item(1, 2, max, 1));
    var c := b.(g := b.g.(bits := bits));
    ShortGlobal(b, Item(1, 7, bits, 1), c);
    OneByteItem(data, pos + 2, b, Item(1, 7, bits, 1));
    var e := c.(g := c.g.(count := 1));
    ShortGlobal(c, Item(1, 9, 1, 1), e);
    OneByteItem(data, pos + 4, c, Item(1, 9, 1, 1));
    OneField(e);
    OneByteItem(data, pos + 6, e, Item(0, 8, 2, 1));
    assert HidLayout.Apply(e, Item(0, 8, 2, 1)) == Some(q) by {
      assert p.offsets[0 := p.offsets[0] + bits] == q.offsets;
    }
  }

  lemma ShortParses()
    ensures LayoutOf(ShortDescriptor()) == Some(ShortLayout())
  {
    hide LayoutOf, Parse;
    var d := ShortDescriptor();
    var first, second := ShortLayout().raw[0], ShortLayout().raw[1];
    var p := ShortParser(Global(0, 1, 1, 0, 0, 1), [first], 1);
    var q := ShortParser(Global(0, 8, 1, 0, 0, 100), [first, second], 9);
    ShortStart();
    ShortStep(d, 0, Start(), 1, 1, p);
    ShortStep(d, 8, p, 100, 8, q);
    ShortEnds(d, q);
  }

  lemma ShortGlobal(p: Parser, item: Item, q: Parser)
    requires item.kind == 1 && GlobalItem(p, item) == Some(q)
    ensures HidLayout.Apply(p, item) == Some(q)
  {
  }

  lemma ShortEnds(data: seq<Byte>, p: Parser)
    requires Parse(data, 0, Start()) == Parse(data, |data|, p) && p.collections == [] && p.stack == [] && p.layout.raw != []
    ensures LayoutOf(data) == Some(p.layout)
  {
  }

  /** A report cut short is refused too, but by then the fields before the cut have already moved the pad: with the
      layout compiled from those bytes, one byte of report presses a button and is then refused. */
  lemma FallbackRefusalCanChange()
    ensures LayoutOf(ShortDescriptor()) == Some(ShortLayout()) && LayoutOk(ShortLayout()) && ShortLayout().fields == []
    ensures var pad := Pad({}, 128, 128, 128, 128, 0, 0);
      Input(ShortLayout(), [1], pad) == (false, pad.(buttons := {14}))
  {
    ShortParses();
    AcceptedLayoutOk(ShortDescriptor());
    hide LayoutOf, LayoutOk, ShortDescriptor;
    ShortRefused(ShortLayout());
  }

  lemma ShortRefused(l: Layout)
    requires |l.raw| == 2 && l.fields == [] && !l.numbered && forall i :: 0 <= i < 2 ==> Sized(l.raw[i])
    requires l.raw[0] == Field(0, 0, 0, 0, 1, 0, 0, 1, 0, 0, false, false) && l.raw[1].report == 0
    requires l.raw[1].offset + l.raw[1].bits > 8
    ensures var pad := Pad({}, 128, 128, 128, 128, 0, 0); Input(l, [1], pad) == (false, pad.(buttons := {14}))
  {
    var data: seq<Byte> := [1];
    var pad := Pad({}, 128, 128, 128, 128, 0, 0);
    assert BitAt(data, 0);
    assert Raw(data, 0, 0) == 0;
    assert Value(l.raw[0], data) == 1;
    var g := Guess(pad, 0, 0);
    var moved := GuessField(l.raw[0], data, g);
    assert moved.pad == pad.(buttons := {14});
    assert l.raw[1..] == [l.raw[1]];
    assert Guessed([l.raw[1]], 0, data, true, moved) == (false, moved.pad);
    assert Guessed(l.raw, 0, data, false, g) == (false, moved.pad);
  }

  // ---- the operations ------------------------------------------------------------------------

  method ReadRaw(f: Field, data: seq<Byte>) returns (value: int)
    requires Sized(f) && Within(f, data)
    ensures value == Value(f, data) && -INT32_MAX - 1 <= value < UINT32
    ensures f.minimum < 0 ==> value <= INT32_MAX
  {
    hide Pow2;
    ValueFits(f, data);
    var raw := 0;
    for bit := 0 to f.bits
      invariant raw == Raw(data, f.offset, bit)
    {
      if BitAt(data, f.offset + bit) { raw := raw + Pow2(bit); }
    }
    value := if f.minimum < 0 && raw >= Pow2(f.bits - 1) then raw - Pow2(f.bits) else raw;
  }

  /** Which buttons the report's arrays cover and which direction controls it has. */
  method Survey(fields: seq<Field>, report: nat) returns (mask: set<nat>, d: Directions)
    ensures mask == ArrayMask(fields, report) && d == DirectionsOf(fields, report)
  {
    hide ButtonRange;
    mask := {};
    var dpad: set<nat>, hat := {}, false;
    for i := 0 to |fields|
      invariant mask == ArrayMask(fields[..i], report)
      invariant dpad == DpadUsages(fields[..i], report) && hat == HasHat(fields[..i], report)
    {
      var f := fields[i];
      assert fields[..i + 1] == fields[..i] + [f];
      SurveyStep(fields[..i], f, report);
      if f.report != report { continue; }
      if f.isArray {
        mask := mask + ButtonRange(f.arrayUsageMin, f.arrayUsageMax);
      } else if IsHat(f) {
        hat := true;
      } else if IsDpad(f) {
        dpad := dpad + {f.usage};
      }
    }
    assert fields[..|fields|] == fields;
    var complete := dpad == {0x90, 0x91, 0x92, 0x93};
    d := Directions(hat && !complete, !hat || complete, hat || complete);
  }

  lemma SurveyStep(fields: seq<Field>, f: Field, report: nat)
    ensures HasHat(fields + [f], report) <==> HasHat(fields, report) || (f.report == report && IsHat(f))
    ensures DpadUsages(fields + [f], report) == DpadUsages(fields, report) + if f.report == report && IsDpad(f) then {f.usage} else {}
    ensures ArrayMask(fields + [f], report)
         == ArrayMask(fields, report) + if f.report == report && f.isArray then ButtonRange(f.arrayUsageMin, f.arrayUsageMax) else {}
  {
    hide ButtonRange;
    var all := fields + [f];
    assert all[..|fields|] == fields && all[|fields|] == f;
    forall u | u in DpadUsages(fields, report) ensures u in DpadUsages(all, report) {
      var i :| 0 <= i < |fields| && fields[i].report == report && IsDpad(fields[i]) && fields[i].usage == u;
      assert all[i] == fields[i];
    }
    if f.report == report && IsDpad(f) { assert all[|fields|].usage in DpadUsages(all, report); }
    if HasHat(fields, report) {
      var i :| 0 <= i < |fields| && fields[i].report == report && IsHat(fields[i]);
      assert all[i] == fields[i];
    }
  }

  method GuessInput(raw: seq<Field>, report: nat, data: seq<Byte>, pad: Pad) returns (found: bool, out: Pad)
    requires forall i :: 0 <= i < |raw| ==> Sized(raw[i])
    ensures (found, out) == Guessed(raw, report, data, false, Guess(pad, 0, 0))
  {
    hide GuessField, Sized, Within;
    found := false;
    var g := Guess(pad, 0, 0);
    assert raw[0..] == raw;
    for i := 0 to |raw|
      invariant Guessed(raw, report, data, false, Guess(pad, 0, 0)) == Guessed(raw[i..], report, data, found, g)
    {
      assert raw[i..][1..] == raw[i + 1..];
      if raw[i].report != report { continue; }
      if !Within(raw[i], data) { return false, g.pad; }
      found := true;
      g := GuessField(raw[i], data, g);
    }
    out := g.pad;
  }

  /** Validates the whole report before it touches the pad. */
  method InputReport(l: Layout, data: seq<Byte>, pad: Pad) returns (found: bool, out: Pad)
    requires LayoutOk(l)
    ensures (found, out) == Input(l, data, pad)
    ensures l.fields != [] && !found ==> out == pad
  {
    hide DirectionsOf, ArrayMask, DigitalTriggers, Guessed, Value, Sized, Within, Apart, Claimed;
    out := pad;
    if data == [] { return false, pad; }
    var report, body := if l.numbered then data[0] else 0, if l.numbered then data[1..] else data;
    if l.fields == [] {
      found, out := GuessInput(l.raw, report, body, pad);
      return;
    }
    var fields := l.fields;
    for i := 0 to |fields|
      invariant forall j :: 0 <= j < i && fields[j].report == report ==> Within(fields[j], body)
    {
      if fields[i].report == report && !Within(fields[i], body) { return false, pad; }
    }
    assert Decodable(fields, report, body);
    var mask, d := Survey(fields, report);
    var next := pad.(buttons := pad.buttons - mask);
    if d.clear { next := next.(buttons := next.buttons - {UP, DOWN, LEFT, RIGHT}); }
    assert next == Cleared(l, report, pad);
    found := false;
    next, found := DecodeFields(l, d, report, body, next);
    if !found { return false, pad; }
    out := DigitalTriggers(l, next);
  }

  method DecodeFields(l: Layout, d: Directions, report: nat, data: seq<Byte>, pad: Pad) returns (out: Pad, found: bool)
    requires Decodable(l.fields, report, data)
    ensures out == ApplyAll(l, d, l.fields, report, data, pad) && found == Addressed(l.fields, report)
  {
    hide ApplyField, Sized, Within;
    out, found := pad, false;
    var fields := l.fields;
    for i := 0 to |fields|
      invariant Decodable(fields[..i], report, data)
      invariant out == ApplyAll(l, d, fields[..i], report, data, pad) && found == Addressed(fields[..i], report)
    {
      assert fields[..i + 1][..i] == fields[..i] && fields[..i + 1][i] == fields[i];
      if fields[i].report != report { continue; }
      found := true;
      out := DecodeField(l, d, fields[i], data, out);
    }
    assert fields[..|fields|] == fields;
  }

  method DecodeField(l: Layout, d: Directions, f: Field, data: seq<Byte>, pad: Pad) returns (out: Pad)
    requires Sized(f) && Within(f, data)
    ensures out == ApplyField(l, d, f, data, pad)
  {
    hide AxisField, HatMask, ArrayUsage, Narrow, Within, Value;
    out := pad;
    var value := ReadRaw(f, data);
    var isNull := IsNull(f, value);
    if f.isArray {
      var usage := ArrayUsage(f, Narrow(value), isNull);
      if 1 <= usage <= BUTTONS { out := out.(buttons := out.buttons + {CANONICAL[usage - 1]}); }
    } else if f.page == 9 {
      if 1 <= f.usage <= BUTTONS { out := SetButton(out, CANONICAL[f.usage - 1], !isNull && value != 0); }
    } else if IsHat(f) {
      if d.hat && !isNull { out := out.(buttons := out.buttons + HatMask(f, Narrow(value))); }
    } else if IsDpad(f) {
      if d.buttons { out := SetButton(out, DpadButton(f.usage), !isNull && value != 0); }
    } else {
      out := AxisField(l, f, value, out);
    }
  }
}
