/** What an applied profile does, told by what goes in and what comes out. */
module ProfileMeaning {
  import opened Bytes
  import opened Patterns
  import opened Quotients
  import opened Wrappers
  import Sticks

  // ---- buttons -------------------------------------------------------------------------------

  /** Every button keeps its own bit. */
  predicate Identity(targets: seq<set<nat>>) {
    |targets| == BUTTONS && forall k :: 0 <= k < BUTTONS ==> targets[k] == {BIT[k]}
  }

  predicate Full(patterns: seq<Pattern>, input: set<nat>, i: nat) {
    i < |patterns| && patterns[i].Some? && 2 <= |patterns[i].value| <= TARGETS && patterns[i].value <= input
  }

  /** All of the pattern's bits are pressed, and every other pressed pattern that shares a bit with it has fewer bits or as many
      and a higher number. */
  predicate Prevails(patterns: seq<Pattern>, input: set<nat>, i: nat) {
    && Full(patterns, input, i)
    && forall j :: 0 <= j < |patterns| && j != i && Full(patterns, input, j) && patterns[j].value * patterns[i].value != {} ==>
         |patterns[j].value| < |patterns[i].value| || (|patterns[j].value| == |patterns[i].value| && i < j)
  }

  lemma PrevailingChosen(patterns: seq<Pattern>, input: set<nat>, chosen: set<nat>, i: nat)
    requires Choice(patterns, input, chosen) && Prevails(patterns, input, i)
    ensures i in chosen
  {
    assert Pressed(patterns, input, i);
    forall j | j in chosen && Before(patterns, j, i) ensures !Overlap(patterns, j, i) {
      assert Pressed(patterns, input, j) && Full(patterns, input, j);
    }
  }

  /** The button of a pattern that prevails comes out, and a bit that it uses up does not come out by itself. */
  lemma PatternActs(patterns: seq<Pattern>, targets: seq<set<nat>>, input: set<nat>, output: set<nat>, i: nat, bit: nat)
    requires |patterns| == TARGETS && |targets| == BUTTONS && Applied(patterns, targets, input, output)
    requires Prevails(patterns, input, i)
    ensures BIT[i] in output
    ensures Identity(targets) && bit in patterns[i].value && bit in BIT
              && (forall j :: 0 <= j < TARGETS && BIT[j] == bit ==> !Full(patterns, input, j))
            ==> bit !in output
  {
    hide Choice, Prevails;
    var chosen :| Choice(patterns, input, chosen) && forall b :: b in output <==> Emitted(patterns, targets, input, chosen, b);
    PrevailingChosen(patterns, input, chosen, i);
    ChosenFull(patterns, input, chosen);
    assert Full(patterns, input, i) by { Prevailing(patterns, input, i); }
    assert bit in patterns[i].value ==> Consumed(patterns, chosen, bit);
  }

  lemma Prevailing(patterns: seq<Pattern>, input: set<nat>, i: nat)
    requires Prevails(patterns, input, i)
    ensures Full(patterns, input, i)
  {
  }

  lemma ChosenFull(patterns: seq<Pattern>, input: set<nat>, chosen: set<nat>)
    requires Choice(patterns, input, chosen)
    ensures forall j :: j in chosen ==> Full(patterns, input, j)
  {
    assert forall j :: j in chosen ==> Pressed(patterns, input, j);
  }

  /** Without a pressed pattern each button gives its mapping, and what no button stands for passes through. */
  lemma MappedOnly(patterns: seq<Pattern>, targets: seq<set<nat>>, input: set<nat>, output: set<nat>, bit: nat)
    requires |patterns| == TARGETS && |targets| == BUTTONS && Applied(patterns, targets, input, output)
    requires forall j :: 0 <= j < TARGETS ==> !Full(patterns, input, j)
    ensures bit in output <==>
      (exists k :: 0 <= k < BUTTONS && BIT[k] in input && bit in targets[k]) || (bit in input && bit !in BIT)
    ensures Identity(targets) ==> (bit in output <==> bit in input)
  {
    hide Choice;
    var chosen :| Choice(patterns, input, chosen) && forall b :: b in output <==> Emitted(patterns, targets, input, chosen, b);
    ChosenFull(patterns, input, chosen);
    assert chosen == {} by { assert forall j :: j in chosen ==> Full(patterns, input, j) && j < TARGETS; }
  }

  // ---- triggers and bound axes ---------------------------------------------------------------

  /** Above its threshold a trigger is the largest whole number not above its share of the travel that is left, but never
      less than one. */
  lemma TriggerShare(v: Byte, threshold: Byte)
    requires threshold <= v && threshold < 255 && v > 0
    ensures var r, travel := ScaleTrigger(v, threshold), (v - threshold) * 255;
      if travel < 255 - threshold then r == 1 else r * (255 - threshold) <= travel < (r + 1) * (255 - threshold)
  {
    var travel, d := (v - threshold) * 255, 255 - threshold;
    if travel < d { DivExact(0, d, travel, travel); }
    DivExact(255, d, 0, d * 255);
    DivMonotone(travel, d * 255, d);
    Within(travel, d);
    if travel >= d {
      DivExact(1, d, 0, d);
      DivMonotone(d, travel, d);
    }
  }

  lemma Within(a: nat, d: nat)
    requires d > 0
    ensures Quotient(a, d) * d <= a < (Quotient(a, d) + 1) * d
  {
    var q := a / d;
    assert a == q * d + a % d;
  }

  /** Rounding goes to the nearest step. */
  lemma Nearest(d: nat, p: nat, k: nat)
    requires d <= p && p > 0
    ensures 2 * d * k - p <= 2 * Rounded(d, p, k) * p <= 2 * d * k + p
  {
    var n := d * k + p / 2;
    assert n == n / p * p + n % p;
    assert Rounded(d, p, k) == n / p;
  }

  /** Between its centre and its end a bound axis is nearest to its share of the way: of 255 steps for a trigger, of 127 up and
      128 down for an axis of a stick. */
  lemma BoundShare(b: Binding, trigger: bool, v: int)
    ensures 0 < Directed(b, v) < Reach(b) ==>
      var steps, from := if trigger then 255 else 127, if trigger then 0 else 128;
      Nearby(BoundAxis(b, trigger, v) - from, Directed(b, v), Reach(b), steps)
    ensures !trigger && 0 < -Directed(b, v) < Retreat(b) ==>
      Nearby(128 - BoundAxis(b, trigger, v), -Directed(b, v), Retreat(b), 128)
    ensures trigger && Directed(b, v) <= 0 ==> BoundAxis(b, trigger, v) == 0
  {
    hide Rounded;
    var d, reach, retreat := Directed(b, v), Reach(b), Retreat(b);
    if 0 < d < reach {
      Nearest(d, reach, 255);
      Nearest(d, reach, 127);
    }
    if 0 < -d < retreat { Nearest(-d, retreat, 128); }
  }

  /** x is nearest to the share d has of p, in steps of which k are p. */
  predicate Nearby(x: int, d: int, p: int, k: int) { 2 * d * k - p <= 2 * x * p <= 2 * d * k + p }

  /** An axis is bound to its feed's own source, and only the two triggers' axes are bound as triggers. */
  lemma FeedMeaning(feed: Option<Feed>, target: nat, axes: seq<Byte>)
    requires target < AXES == |axes|
    ensures feed.None? ==> Fed(feed, target, axes) == axes[target]
    ensures feed.Some? && 0 <= feed.value.source < AXES && axes[feed.value.source] == feed.value.binding.center
            ==> Fed(feed, target, axes) == if target < 4 then 128 else 0
    ensures feed.Some? && 0 <= feed.value.source < AXES && Reach(feed.value.binding) > 0
              && Directed(feed.value.binding, axes[feed.value.source]) >= Reach(feed.value.binding)
            ==> Fed(feed, target, axes) == 255
  {
    hide Rounded, Directed, Reach, Retreat, BoundAxis;
    if feed.Some? && 0 <= feed.value.source < AXES {
      var v := axes[feed.value.source];
      BoundAxisShape(feed.value.binding, target == L2_AXIS || target == R2_AXIS, v, v);
    }
  }

  // ---- the whole profile ---------------------------------------------------------------------

  /** A trigger is pulled far enough. */
  predicate Pulled(v: Byte, threshold: Byte) { v >= threshold && v > 0 }

  /** With no pattern and every button on its own bit, the left trigger answers to the left threshold and the right one to the
      right: it is down when it is pulled far enough, or was down and has no threshold; all other buttons stay. */
  lemma TriggersMeaning(patterns: seq<Pattern>, targets: seq<set<nat>>, feeds: seq<Option<Feed>>, buttons: set<nat>, axes: seq<Byte>,
                        thresholds: (Byte, Byte), curves: (Sticks.Curve, Sticks.Curve), root: real -> real,
                        output: set<nat>, out: seq<Byte>, bit: nat)
    requires |patterns| == TARGETS && Identity(targets) && |feeds| == |axes| == AXES
    requires forall j :: 0 <= j < TARGETS ==> patterns[j].None?
    requires Profiled(patterns, targets, feeds, buttons, axes, thresholds, curves, root, output, out)
    ensures var l2, r2 := Fed(feeds[4], 4, axes), Fed(feeds[5], 5, axes);
      && (out[4] > 0 <==> Pulled(l2, thresholds.0)) && (out[5] > 0 <==> Pulled(r2, thresholds.1))
      && (L2 in output <==> Pulled(l2, thresholds.0) || (thresholds.0 == 0 && L2 in buttons))
      && (R2 in output <==> Pulled(r2, thresholds.1) || (thresholds.1 == 0 && R2 in buttons))
    ensures bit != L2 && bit != R2 ==> (bit in output <==> bit in buttons)
  {
    hide Applied, ScaleTrigger, Fed, Curved, Identity;
    var l2, r2 := Fed(feeds[4], 4, axes), Fed(feeds[5], 5, axes);
    TriggerShape(l2, l2, thresholds.0);
    TriggerShape(r2, r2, thresholds.1);
    var input := TriggerInput(TriggerInput(buttons, L2, out[L2_AXIS], thresholds.0), R2, out[R2_AXIS], thresholds.1);
    forall b ensures b in output <==> b in input {
      assert |targets| == BUTTONS by { Sized(targets); }
      MappedOnly(patterns, targets, input, output, b);
    }
  }

  lemma Sized(targets: seq<set<nat>>)
    requires Identity(targets)
    ensures |targets| == BUTTONS
  {
  }

  lemma MagnitudeUnique(m: real, n: real)
    requires m >= 0.0 && n >= 0.0 && Sticks.Times(m, m) == Sticks.Times(n, n)
    ensures m == n
  {
    hide Sticks.Times;
    if m < n { Sticks.SquaresGrow(m, n); }
    if n < m { Sticks.SquaresGrow(n, m); }
  }

  lemma MiddleRests(invert: bool, m: real, c: Sticks.Curve)
    requires c.Tuned()
    ensures Sticks.StickAxis(128, invert, m, c) == 128
  {
    hide Sticks.Times, Sticks.Travel;
    Sticks.AxisPoints();
    if m > c.deadzone && m != 0.0 { Sticks.Zero(Sticks.Scale(m, c)); }
  }

  /** A stick moved along one axis: that axis follows its own inversion and the curve, the other rests. */
  lemma AlongOneAxis(c: Sticks.Curve, root: real -> real, v: Byte, newX: Byte, newY: Byte)
    requires c.Tuned()
    ensures Curved(c, root, v, 128, newX, newY) && Sticks.IsMagnitude(root(Sticks.Square(Sticks.ToUnit(v), Sticks.ToUnit(128))), v, 128)
            ==> newX == Sticks.Alone(v, c.invertX, c) && newY == 128
    ensures Curved(c, root, 128, v, newX, newY) && Sticks.IsMagnitude(root(Sticks.Square(Sticks.ToUnit(128), Sticks.ToUnit(v))), 128, v)
            ==> newX == 128 && newY == Sticks.Alone(v, c.invertY, c)
  {
    hide Sticks.Times, Sticks.ToUnit, Sticks.StickAxis;
    var far := if v >= 128 then Sticks.ToUnit(v) else -Sticks.ToUnit(v);
    Sticks.AloneIs(v, false, c);
    Sticks.UnitRange(v);
    var m := root(Sticks.Square(Sticks.ToUnit(v), Sticks.ToUnit(128)));
    if Sticks.IsMagnitude(m, v, 128) {
      MagnitudeUnique(m, far);
      MiddleRests(c.invertY, m, c);
    }
    var n := root(Sticks.Square(Sticks.ToUnit(128), Sticks.ToUnit(v)));
    if Sticks.IsMagnitude(n, 128, v) {
      MagnitudeUnique(n, far);
      MiddleRests(c.invertX, n, c);
    }
  }

  /** The root, taken of the square of a position's distance, is that distance. */
  predicate Rooted(root: real -> real, x: Byte, y: Byte) {
    Sticks.IsMagnitude(root(Sticks.Square(Sticks.ToUnit(x), Sticks.ToUnit(y))), x, y)
  }

  /** Each stick is bent by its own settings: the one whose settings are neutral stays as bound, whatever the other's are. */
  lemma SticksApart(patterns: seq<Pattern>, targets: seq<set<nat>>, feeds: seq<Option<Feed>>, buttons: set<nat>, axes: seq<Byte>,
                    thresholds: (Byte, Byte), curves: (Sticks.Curve, Sticks.Curve), root: real -> real,
                    output: set<nat>, out: seq<Byte>)
    requires |targets| == BUTTONS && |feeds| == |axes| == AXES
    requires Profiled(patterns, targets, feeds, buttons, axes, thresholds, curves, root, output, out)
    ensures var x, y := Fed(feeds[0], 0, axes), Fed(feeds[1], 1, axes);
      curves.0 == Sticks.NEUTRAL && Rooted(root, x, y) && root(Sticks.Square(Sticks.ToUnit(x), Sticks.ToUnit(y))) <= 1.0
      ==> out[0] == x && out[1] == y
    ensures var x, y := Fed(feeds[2], 2, axes), Fed(feeds[3], 3, axes);
      curves.1 == Sticks.NEUTRAL && Rooted(root, x, y) && root(Sticks.Square(Sticks.ToUnit(x), Sticks.ToUnit(y))) <= 1.0
      ==> out[2] == x && out[3] == y
  {
    hide Applied, ScaleTrigger, Fed, Sticks.ToUnit, Sticks.Times, Sticks.Square, Sticks.StickAxis;
    CurveNeutral(curves.0, root, Fed(feeds[0], 0, axes), Fed(feeds[1], 1, axes), out[0], out[1]);
    CurveNeutral(curves.1, root, Fed(feeds[2], 2, axes), Fed(feeds[3], 3, axes), out[2], out[3]);
  }

  lemma CurveNeutral(c: Sticks.Curve, root: real -> real, x: Byte, y: Byte, newX: Byte, newY: Byte)
    requires Curved(c, root, x, y, newX, newY)
    ensures c == Sticks.NEUTRAL && Rooted(root, x, y) && root(Sticks.Square(Sticks.ToUnit(x), Sticks.ToUnit(y))) <= 1.0
            ==> newX == x && newY == y
  {
    hide Sticks.ToUnit, Sticks.Times, Sticks.Square, Sticks.StickAxis;
    var m := root(Sticks.Square(Sticks.ToUnit(x), Sticks.ToUnit(y)));
    if c == Sticks.NEUTRAL && Rooted(root, x, y) && m <= 1.0 { Sticks.NeutralKeeps(m, x, y); }
  }
}
