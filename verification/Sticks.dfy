/** The stick curves of a profile: dead zone, sensitivity and inversion, along the stick's own direction.

    Exact arithmetic stands for single precision, and the square root is a parameter. */
module Sticks {
  import opened Bytes

  /** Settings within the ranges that a profile is loaded with. */
  datatype Curve = Curve(deadzone: real, sensitivity: real, invertX: bool, invertY: bool) {
    predicate Tuned() { 0.0 <= deadzone <= 0.95 && 0.1 <= sensitivity <= 3.0 }
  }

  const NEUTRAL := Curve(0.0, 1.0, false, false)

  /** A product with a name, which proofs can treat as a whole. */
  function Times(a: real, b: real): real { a * b }

  /** The position from -1 to 1; the two sides of the middle have 128 and 127 steps. */
  function ToUnit(v: Byte): real {
    if v >= 128 then (v - 128) as real / 127.0 else (v - 128) as real / 128.0
  }

  function Unit(v: Byte, invert: bool): real { if invert then -ToUnit(v) else ToUnit(v) }

  function Clamped(u: real): real { if u > 1.0 then 1.0 else if u < -1.0 then -1.0 else u }

  function ToAxis(u: real): (axis: Byte) {
    var c := Clamped(u);
    var raw := if c >= 0.0 then 128.0 + c * 127.0 else 128.0 + c * 128.0;
    var rounded := (raw + 0.5).Floor;
    if rounded < 0 then 0 else if rounded > 255 then 255 else rounded
  }

  /** The square of the distance from the middle. */
  function Square(ux: real, uy: real): real { Times(ux, ux) + Times(uy, uy) }

  /** What lies beyond the dead zone, stretched. */
  function Beyond(m: real, c: Curve): real
    requires c.Tuned()
  {
    Times((m - c.deadzone) / (1.0 - c.deadzone), c.sensitivity)
  }

  function Travel(m: real, c: Curve): real
    requires c.Tuned()
  {
    if Beyond(m, c) > 1.0 then 1.0 else Beyond(m, c)
  }

  /** What a position is multiplied with to have that travel. */
  function Scale(m: real, c: Curve): real
    requires c.Tuned() && m != 0.0
  {
    Travel(m, c) / m
  }

  /** One axis of a stick that is m away from the middle. */
  function StickAxis(v: Byte, invert: bool, m: real, c: Curve): Byte
    requires c.Tuned()
  {
    if m <= c.deadzone || m == 0.0 then 128 else ToAxis(Times(Unit(v, invert), Scale(m, c)))
  }

  method ApplyStick(x: Byte, y: Byte, c: Curve, root: real -> real) returns (newX: Byte, newY: Byte)
    requires c.Tuned()
    ensures var m := root(Square(ToUnit(x), ToUnit(y)));
      newX == StickAxis(x, c.invertX, m, c) && newY == StickAxis(y, c.invertY, m, c)
  {
    hide ToUnit, ToAxis, Scale, Times;
    var ux, uy := Unit(x, c.invertX), Unit(y, c.invertY);
    var magnitude := root(Square(ux, uy));
    Inverted(ToUnit(x));
    Inverted(ToUnit(y));
    assert Square(ux, uy) == Square(ToUnit(x), ToUnit(y));
    if magnitude <= c.deadzone || magnitude == 0.0 { return 128, 128; }
    var scale := Scale(magnitude, c);
    newX, newY := ToAxis(Times(ux, scale)), ToAxis(Times(uy, scale));
  }

  // ---- products ------------------------------------------------------------------------------

  lemma Inverted(a: real)
    ensures Times(-a, -a) == Times(a, a)
  {
  }

  lemma Commute(a: real, b: real)
    ensures Times(a, b) == Times(b, a)
  {
  }

  lemma Stretch(p: real, q: real, s: real)
    requires p <= q && s >= 0.0
    ensures Times(p, s) <= Times(q, s)
    ensures p < q && s > 0.0 ==> Times(p, s) < Times(q, s)
  {
  }

  lemma Zero(s: real)
    ensures Times(0.0, s) == 0.0 && Times(s, 1.0) == Times(1.0, s) == s
  {
  }

  lemma SquaresGrow(a: real, b: real)
    requires 0.0 <= a < b
    ensures Times(a, a) < Times(b, b)
  {
    hide Times;
    Stretch(a, b, b);
    Stretch(a, b, a);
    Commute(a, b);
  }

  lemma SquarePositive(a: real)
    ensures Times(a, a) >= 0.0 && (a != 0.0 ==> Times(a, a) > 0.0)
  {
    hide Times;
    Zero(0.0);
    Inverted(a);
    if a > 0.0 { SquaresGrow(0.0, a); }
    if a < 0.0 { SquaresGrow(0.0, -a); }
  }

  lemma NoLonger(a: real, b: real, m: real)
    requires Square(a, b) == Times(m, m) && m >= 0.0
    ensures -m <= a <= m && (m == 0.0 ==> b == 0.0)
  {
    hide Times;
    Zero(0.0);
    SquarePositive(a);
    SquarePositive(b);
    Inverted(a);
    if a > m { SquaresGrow(m, a); }
    if -a > m { SquaresGrow(m, -a); }
  }

  lemma ProductSquare(a: real, k: real)
    ensures Times(Times(a, k), Times(a, k)) == Times(Times(a, a), Times(k, k))
  {
  }

  lemma Sum(a: real, b: real, k: real)
    ensures Times(a, k) + Times(b, k) == Times(a + b, k)
  {
  }

  lemma Scaled(a: real, b: real, m: real, k: real)
    requires Square(a, b) == Times(m, m)
    ensures Square(Times(a, k), Times(b, k)) == Times(Times(m, k), Times(m, k))
  {
    hide Times;
    ProductSquare(a, k);
    ProductSquare(b, k);
    ProductSquare(m, k);
    Sum(Times(a, a), Times(b, b), Times(k, k));
  }

  lemma Cancel(t: real, m: real)
    requires m != 0.0
    ensures Times(m, t / m) == t && Times(-m, t / m) == -t
  {
  }

  // ---- positions -----------------------------------------------------------------------------

  lemma UnitRange(v: Byte)
    ensures -1.0 <= ToUnit(v) <= 1.0 && (ToUnit(v) == 0.0 <==> v == 128) && (ToUnit(v) >= 0.0 <==> v >= 128)
  {
  }

  /** A position that is read and written again is the same. */
  lemma AxisReads(v: Byte)
    ensures ToAxis(ToUnit(v)) == v
  {
  }

  lemma AxisMonotone(t: real, u: real)
    requires t <= u
    ensures ToAxis(t) <= ToAxis(u)
  {
  }

  lemma AxisPoints()
    ensures ToAxis(0.0) == 128 && ToAxis(1.0) == 255 && ToAxis(-1.0) == 0
  {
  }

  /** The position on the other side; beyond half way it is one step nearer to the lower end. */
  function Turned(v: Byte): Byte {
    if v < 64 || v >= 192 then 255 - v else 256 - v
  }

  lemma TurnsOver(v: Byte)
    ensures ToAxis(-ToUnit(v)) == Turned(v)
  {
  }

  lemma TurnsBack(v: Byte)
    ensures ToAxis(-ToUnit(ToAxis(-ToUnit(v)))) == v <==> v != 64
  {
    hide ToAxis, ToUnit;
    TurnsOver(v);
    TurnsOver(Turned(v));
  }

  // ---- curves --------------------------------------------------------------------------------

  predicate IsMagnitude(m: real, x: Byte, y: Byte) {
    m >= 0.0 && Square(ToUnit(x), ToUnit(y)) == Times(m, m)
  }

  lemma TravelMonotone(m: real, n: real, c: Curve)
    requires c.Tuned() && m <= n
    ensures Travel(m, c) <= Travel(n, c)
  {
    hide Times;
    Stretch((m - c.deadzone) / (1.0 - c.deadzone), (n - c.deadzone) / (1.0 - c.deadzone), c.sensitivity);
  }

  lemma TravelRange(m: real, c: Curve)
    requires c.Tuned() && m > c.deadzone
    ensures 0.0 < Travel(m, c) <= 1.0
  {
    hide Times;
    Zero(c.sensitivity);
    Stretch(0.0, (m - c.deadzone) / (1.0 - c.deadzone), c.sensitivity);
  }

  lemma TravelFull(c: Curve)
    requires c.Tuned() && c.sensitivity >= 1.0
    ensures Travel(1.0, c) == 1.0
  {
    hide Times;
    Whole(1.0 - c.deadzone);
    Zero(c.sensitivity);
  }

  lemma Whole(d: real)
    requires d != 0.0
    ensures d / d == 1.0
  {
  }

  lemma NeutralTravel(m: real)
    requires 0.0 < m <= 1.0
    ensures Scale(m, NEUTRAL) == 1.0
  {
    assert Travel(m, NEUTRAL) == m;
  }

  /** With neutral settings a stick within the unit circle stays exactly where it is. */
  lemma NeutralKeeps(m: real, x: Byte, y: Byte)
    requires IsMagnitude(m, x, y) && m <= 1.0
    ensures StickAxis(x, false, m, NEUTRAL) == x && StickAxis(y, false, m, NEUTRAL) == y
  {
    hide ToUnit, ToAxis, Scale, Times;
    if m == 0.0 {
      NoLonger(ToUnit(x), ToUnit(y), m);
      UnitRange(x);
      UnitRange(y);
    } else {
      NeutralTravel(m);
      Zero(ToUnit(x));
      Zero(ToUnit(y));
      AxisReads(x);
      AxisReads(y);
    }
  }

  /** Outside the dead zone the position keeps its direction, and its distance from the middle becomes the travel; that
      is at most one, so neither axis is cut off. */
  lemma KeepsDirection(m: real, x: Byte, y: Byte, c: Curve)
    requires IsMagnitude(m, x, y) && c.Tuned() && m > c.deadzone
    ensures Scale(m, c) > 0.0 && 0.0 < Travel(m, c) <= 1.0
    ensures var newX, newY := Times(Unit(x, c.invertX), Scale(m, c)), Times(Unit(y, c.invertY), Scale(m, c));
      && Square(newX, newY) == Times(Travel(m, c), Travel(m, c))
      && Clamped(newX) == newX && Clamped(newY) == newY
  {
    hide ToUnit, Travel, Times;
    TravelRange(m, c);
    Cancel(Travel(m, c), m);
    Inverted(ToUnit(x));
    Inverted(ToUnit(y));
    var a, b, k := Unit(x, c.invertX), Unit(y, c.invertY), Scale(m, c);
    Scaled(a, b, m, k);
    NoLonger(Times(a, k), Times(b, k), Travel(m, c));
    NoLonger(Times(b, k), Times(a, k), Travel(m, c));
  }

  /** An axis moved alone, the other in the middle. */
  function Alone(v: Byte, invert: bool, c: Curve): Byte
    requires c.Tuned()
  {
    StickAxis(v, invert, if v >= 128 then ToUnit(v) else -ToUnit(v), c)
  }

  function Signed(v: Byte, c: Curve): real
    requires c.Tuned()
  {
    var u := ToUnit(v);
    if u > c.deadzone then Travel(u, c) else if -u > c.deadzone then -Travel(-u, c) else 0.0
  }

  lemma AloneIs(v: Byte, invert: bool, c: Curve)
    requires c.Tuned()
    ensures Alone(v, invert, c) == ToAxis(if invert then -Signed(v, c) else Signed(v, c))
    ensures IsMagnitude(if v >= 128 then ToUnit(v) else -ToUnit(v), v, 128)
  {
    hide ToUnit, ToAxis, Travel, Times;
    UnitRange(v);
    UnitRange(128);
    Zero(0.0);
    Inverted(ToUnit(v));
    AxisPoints();
    var m := if v >= 128 then ToUnit(v) else -ToUnit(v);
    if m > c.deadzone { Cancel(Travel(m, c), m); }
  }

  lemma SignedMonotone(v: Byte, w: Byte, c: Curve)
    requires c.Tuned() && v <= w
    ensures Signed(v, c) <= Signed(w, c)
  {
    hide Travel;
    var t, u := ToUnit(v), ToUnit(w);
    if t > c.deadzone {
      TravelMonotone(t, u, c);
    } else if -u > c.deadzone {
      TravelMonotone(-u, -t, c);
    }
    if u > c.deadzone { TravelRange(u, c); }
    if -t > c.deadzone { TravelRange(-t, c); }
  }

  lemma SignedEnds(c: Curve)
    requires c.Tuned() && c.sensitivity >= 1.0
    ensures Signed(255, c) == 1.0 && Signed(0, c) == -1.0
  {
    hide Travel;
    TravelFull(c);
    assert ToUnit(255) == 1.0 && ToUnit(0) == -1.0;
  }

  /** An axis moved alone follows the stick without ever turning back, rests in the dead zone, and reaches both ends if
      the sensitivity is at least one. */
  lemma AloneShape(v: Byte, w: Byte, c: Curve)
    requires c.Tuned()
    ensures v <= w ==> Alone(v, false, c) <= Alone(w, false, c) && Alone(v, true, c) >= Alone(w, true, c)
    ensures -c.deadzone <= ToUnit(v) <= c.deadzone ==> Alone(v, false, c) == Alone(v, true, c) == 128
    ensures c.sensitivity >= 1.0 ==> Alone(0, false, c) == Alone(255, true, c) == 0
    ensures c.sensitivity >= 1.0 ==> Alone(255, false, c) == Alone(0, true, c) == 255
  {
    hide Alone, ToAxis, ToUnit, Travel;
    forall z, invert ensures Alone(z, invert, c) == ToAxis(if invert then -Signed(z, c) else Signed(z, c)) {
      AloneIs(z, invert, c);
    }
    AxisPoints();
    if v <= w {
      SignedMonotone(v, w, c);
      AxisMonotone(Signed(v, c), Signed(w, c));
      AxisMonotone(-Signed(w, c), -Signed(v, c));
    }
    if c.sensitivity >= 1.0 { SignedEnds(c); }
  }

  lemma InvertOnce(v: Byte)
    ensures Alone(v, true, NEUTRAL) == ToAxis(-ToUnit(v))
  {
    hide ToAxis, ToUnit;
    AloneIs(v, true, NEUTRAL);
    UnitRange(v);
    assert Signed(v, NEUTRAL) == ToUnit(v);
  }

  /** With settings neutral otherwise, inverting twice gives every position back but one: 64 inverts to 192, and 192
      to 63. */
  lemma InvertTwice(v: Byte)
    ensures Alone(Alone(v, true, NEUTRAL), true, NEUTRAL) == v <==> v != 64
  {
    hide Alone, ToAxis, ToUnit;
    InvertOnce(v);
    InvertOnce(Alone(v, true, NEUTRAL));
    TurnsBack(v);
  }
}
