/** Applying a profile to a pad: learned button patterns, remapping, trigger thresholds, axis bindings and stick curves.

    Buttons are bit positions of the button word. A pattern names a combination of bits that one physical control
    sends; the widest pressed patterns are chosen first and use up their bits. */
module Patterns {
  import opened Bytes
  import opened Quotients
  import Sticks
  import opened Wrappers

  const BUTTONS: nat := 22
  const TARGETS: nat := 18
  const L2: nat := 8
  const R2: nat := 9

  /** The bit of each named button, in the order of their numbers. */
  const BIT: seq<nat> := [0, 1, 2, 3, 4, 5, 6, 7, 8, 9, 10, 11, 12, 13, 14, 15, 16, 20, 17, 18, 19, 21]

  type Pattern = Option<set<nat>>

  // ---- which patterns are chosen -------------------------------------------------------------

  predicate Pressed(patterns: seq<Pattern>, input: set<nat>, i: nat) {
    i < |patterns| && patterns[i].Some? && 2 <= |patterns[i].value| <= TARGETS && patterns[i].value <= input
  }

  /** Wider patterns come first, then those of lower buttons. */
  predicate Before(patterns: seq<Pattern>, j: nat, i: nat)
    requires j < |patterns| && i < |patterns| && patterns[j].Some? && patterns[i].Some?
  {
    |patterns[j].value| > |patterns[i].value| || (|patterns[j].value| == |patterns[i].value| && j < i)
  }

  predicate Overlap(patterns: seq<Pattern>, j: nat, i: nat)
    requires j < |patterns| && i < |patterns| && patterns[j].Some? && patterns[i].Some?
  {
    patterns[j].value * patterns[i].value != {}
  }

  /** A pressed pattern is chosen exactly when no chosen one that comes before it shares a bit. */
  ghost predicate Choice(patterns: seq<Pattern>, input: set<nat>, chosen: set<nat>) {
    && (forall i :: i in chosen ==> Pressed(patterns, input, i))
    && forall i :: Pressed(patterns, input, i) ==>
         (i in chosen <==> forall j :: j in chosen && Before(patterns, j, i) ==> !Overlap(patterns, j, i))
  }

  /** Chosen patterns share no bit. */
  lemma ChosenDisjoint(patterns: seq<Pattern>, input: set<nat>, chosen: set<nat>, i: nat, j: nat)
    requires Choice(patterns, input, chosen) && i in chosen && j in chosen && i != j
    ensures patterns[i].value <= input && !Overlap(patterns, i, j)
  {
    assert Pressed(patterns, input, i) && Pressed(patterns, input, j);
    if Before(patterns, i, j) {
    } else {
      assert Before(patterns, j, i);
    }
  }

  /** A pressed pattern that is not chosen gave way to a wider one, or to one as wide with a lower number. */
  lemma PassedOver(patterns: seq<Pattern>, input: set<nat>, chosen: set<nat>, i: nat)
    requires Choice(patterns, input, chosen) && Pressed(patterns, input, i) && i !in chosen
    ensures exists j :: j in chosen && Pressed(patterns, input, j) && Overlap(patterns, j, i)
                        && (|patterns[j].value| > |patterns[i].value| || (|patterns[j].value| == |patterns[i].value| && j < i))
  {
  }

  function Rank(patterns: seq<Pattern>, i: nat): int
    requires i < |patterns| && patterns[i].Some?
  {
    (TARGETS - |patterns[i].value|) * |patterns| + i
  }

  lemma RankOrder(patterns: seq<Pattern>, j: nat, i: nat)
    requires j < |patterns| && i < |patterns| && patterns[j].Some? && patterns[i].Some? && Before(patterns, j, i)
    requires |patterns[i].value| <= TARGETS && |patterns[j].value| <= TARGETS
    ensures 0 <= Rank(patterns, j) < Rank(patterns, i)
  {
    var n, a, b := |patterns|, TARGETS - |patterns[j].value|, TARGETS - |patterns[i].value|;
    MultipleStep(a, b, n);
  }

  lemma {:induction false} SameAt(patterns: seq<Pattern>, input: set<nat>, a: set<nat>, b: set<nat>, i: nat)
    requires Choice(patterns, input, a) && Choice(patterns, input, b) && Pressed(patterns, input, i)
    ensures i in a <==> i in b
    decreases Rank(patterns, i)
  {
    forall j | Pressed(patterns, input, j) && Before(patterns, j, i) ensures j in a <==> j in b {
      RankOrder(patterns, j, i);
      SameAt(patterns, input, a, b, j);
    }
    assert forall j :: j in a ==> Pressed(patterns, input, j);
    assert forall j :: j in b ==> Pressed(patterns, input, j);
  }

  /** The rule determines the choice. */
  lemma ChoiceUnique(patterns: seq<Pattern>, input: set<nat>, a: set<nat>, b: set<nat>)
    requires Choice(patterns, input, a) && Choice(patterns, input, b)
    ensures a == b
  {
    forall i ensures i in a <==> i in b {
      if Pressed(patterns, input, i) { SameAt(patterns, input, a, b, i); }
    }
  }

  // ---- what comes out ------------------------------------------------------------------------

  ghost predicate Consumed(patterns: seq<Pattern>, chosen: set<nat>, bit: nat) {
    exists i :: 0 <= i < |patterns| && i in chosen && patterns[i].Some? && bit in patterns[i].value
  }

  predicate Known(bit: nat) { bit in BIT }

  /** A bit of the result: a chosen pattern's button, an unconsumed pressed button's mapping, or an unknown bit. */
  ghost predicate Emitted(patterns: seq<Pattern>, targets: seq<set<nat>>, input: set<nat>, chosen: set<nat>, bit: nat)
    requires |targets| == BUTTONS
  {
    || (exists i :: 0 <= i < TARGETS && i in chosen && BIT[i] == bit)
    || (exists k :: 0 <= k < BUTTONS && BIT[k] in input && !Consumed(patterns, chosen, BIT[k]) && bit in targets[k])
    || (bit in input && !Known(bit))
  }

  /** The result is determined by profile and input. */
  ghost predicate Applied(patterns: seq<Pattern>, targets: seq<set<nat>>, input: set<nat>, output: set<nat>)
    requires |targets| == BUTTONS
  {
    exists chosen :: Choice(patterns, input, chosen) && forall bit :: bit in output <==> Emitted(patterns, targets, input, chosen, bit)
  }

  lemma AppliedUnique(patterns: seq<Pattern>, targets: seq<set<nat>>, input: set<nat>, a: set<nat>, b: set<nat>)
    requires |targets| == BUTTONS && Applied(patterns, targets, input, a) && Applied(patterns, targets, input, b)
    ensures a == b
  {
    hide Choice, Emitted;
    var c :| Choice(patterns, input, c) && forall bit :: bit in a <==> Emitted(patterns, targets, input, c, bit);
    var d :| Choice(patterns, input, d) && forall bit :: bit in b <==> Emitted(patterns, targets, input, d, bit);
    ChoiceUnique(patterns, input, c, d);
  }

  /** A button used up by a chosen pattern does not act on its own: its mapping is irrelevant. */
  lemma ConsumedDoesNotLeak(patterns: seq<Pattern>, targets: seq<set<nat>>, input: set<nat>, chosen: set<nat>, k: nat,
                            other: set<nat>, bit: nat)
    requires |targets| == BUTTONS && k < BUTTONS && Consumed(patterns, chosen, BIT[k])
    ensures Emitted(patterns, targets, input, chosen, bit) <==> Emitted(patterns, targets[k := other], input, chosen, bit)
  {
    hide Consumed, Known;
    var more := targets[k := other];
    assert forall m :: 0 <= m < BUTTONS && m != k ==> more[m] == targets[m];
    if m :| 0 <= m < BUTTONS && BIT[m] in input && !Consumed(patterns, chosen, BIT[m]) && bit in targets[m] {
      assert m != k && bit in more[m];
    }
    if m :| 0 <= m < BUTTONS && BIT[m] in input && !Consumed(patterns, chosen, BIT[m]) && bit in more[m] {
      assert m != k && bit in targets[m];
    }
  }

  // ---- the loops -----------------------------------------------------------------------------

  /** Patterns already passed when width and target have been reached. */
  predicate Passed(patterns: seq<Pattern>, width: nat, target: nat, i: nat) {
    i < |patterns| && patterns[i].Some? && (|patterns[i].value| > width || (|patterns[i].value| == width && i < target))
  }

  /** The choice, restricted to the patterns passed. */
  ghost predicate ChoiceSoFar(patterns: seq<Pattern>, input: set<nat>, chosen: set<nat>, width: nat, target: nat) {
    && (forall i :: i in chosen ==> Pressed(patterns, input, i) && Passed(patterns, width, target, i))
    && forall i :: Pressed(patterns, input, i) && Passed(patterns, width, target, i) ==>
         (i in chosen <==> forall j :: j in chosen && Before(patterns, j, i) ==> !Overlap(patterns, j, i))
  }

  /** No bit of the pattern is used up exactly when it overlaps no chosen one. */
  lemma OverlapConsumed(patterns: seq<Pattern>, input: set<nat>, chosen: set<nat>, target: nat)
    requires target < |patterns| && patterns[target].Some?
    requires forall j :: j in chosen ==> Pressed(patterns, input, j)
    ensures (forall bit :: bit in patterns[target].value ==> !Consumed(patterns, chosen, bit))
       <==> forall j :: j in chosen && Pressed(patterns, input, j) ==> !Overlap(patterns, j, target)
  {
    forall j | j in chosen && Overlap(patterns, j, target)
      ensures exists bit :: bit in patterns[target].value && Consumed(patterns, chosen, bit)
    {
      var bit :| bit in patterns[j].value * patterns[target].value;
      assert Consumed(patterns, chosen, bit);
    }
    forall bit | bit in patterns[target].value && Consumed(patterns, chosen, bit)
      ensures exists j :: j in chosen && Overlap(patterns, j, target)
    {
      var j :| 0 <= j < |patterns| && j in chosen && patterns[j].Some? && bit in patterns[j].value;
      assert bit in patterns[j].value * patterns[target].value;
    }
  }

  ghost predicate Takes(patterns: seq<Pattern>, input: set<nat>, chosen: set<nat>, width: nat, target: nat)
    requires target < |patterns|
  {
    && Pressed(patterns, input, target) && |patterns[target].value| == width
    && forall bit :: bit in patterns[target].value ==> !Consumed(patterns, chosen, bit)
  }

  lemma ChoiceStep(patterns: seq<Pattern>, input: set<nat>, chosen: set<nat>, width: nat, target: nat, next: set<nat>)
    requires ChoiceSoFar(patterns, input, chosen, width, target) && target < |patterns| && 2 <= width <= TARGETS
    requires next == if Takes(patterns, input, chosen, width, target) then chosen + {target} else chosen
    ensures ChoiceSoFar(patterns, input, next, width, target + 1)
  {
    hide Consumed;
    if patterns[target].Some? { OverlapConsumed(patterns, input, chosen, target); }
    forall i | Pressed(patterns, input, i) && Passed(patterns, width, target + 1, i)
      ensures i in next <==> forall j :: j in next && Before(patterns, j, i) ==> !Overlap(patterns, j, i)
    {
      if Passed(patterns, width, target, i) {
        EarlierUnmoved(patterns, input, chosen, width, target, next, i);
      } else {
        assert i == target;
        assert forall j :: j in chosen ==> Before(patterns, j, i);
        assert !Before(patterns, i, i);
      }
    }
  }

  /** Taking a later pattern changes nothing for an earlier one. */
  lemma EarlierUnmoved(patterns: seq<Pattern>, input: set<nat>, chosen: set<nat>, width: nat, target: nat, next: set<nat>, i: nat)
    requires ChoiceSoFar(patterns, input, chosen, width, target) && target < |patterns|
    requires next == chosen || (next == chosen + {target} && patterns[target].Some? && |patterns[target].value| == width)
    requires Pressed(patterns, input, i) && Passed(patterns, width, target, i)
    requires forall j :: j in next ==> Pressed(patterns, input, j)
    ensures i in next <==> forall j :: j in next && Before(patterns, j, i) ==> !Overlap(patterns, j, i)
  {
    if next != chosen {
      assert !Before(patterns, target, i) && i != target;
      assert forall j :: j in next && Before(patterns, j, i) ==> j in chosen;
    }
  }

  lemma NextWidth(patterns: seq<Pattern>, input: set<nat>, chosen: set<nat>, width: nat)
    requires ChoiceSoFar(patterns, input, chosen, width, |patterns|) && width >= 1
    ensures ChoiceSoFar(patterns, input, chosen, width - 1, 0)
  {
    forall i ensures Passed(patterns, width, |patterns|, i) <==> Passed(patterns, width - 1, 0, i) {}
  }

  /** What output and used-up bits hold for the patterns chosen so far. */
  ghost predicate Tallied(patterns: seq<Pattern>, chosen: set<nat>, output: set<nat>, consumed: set<nat>) {
    && |patterns| == TARGETS
    && (forall bit :: bit in consumed <==> Consumed(patterns, chosen, bit))
    && forall bit :: bit in output <==> exists i :: 0 <= i < TARGETS && i in chosen && BIT[i] == bit
  }

  lemma TallyMore(patterns: seq<Pattern>, chosen: set<nat>, output: set<nat>, consumed: set<nat>, i: nat)
    requires Tallied(patterns, chosen, output, consumed) && i < TARGETS && patterns[i].Some?
    ensures Tallied(patterns, chosen + {i}, output + {BIT[i]}, consumed + patterns[i].value)
  {
    var more := chosen + {i};
    forall bit | Consumed(patterns, chosen, bit) ensures Consumed(patterns, more, bit) {
      var j :| 0 <= j < |patterns| && j in chosen && patterns[j].Some? && bit in patterns[j].value;
      assert j in more;
    }
    forall bit | bit in output ensures exists k :: 0 <= k < TARGETS && k in more && BIT[k] == bit {
      var k :| 0 <= k < TARGETS && k in chosen && BIT[k] == bit;
      assert k in more;
    }
    assert i in more;
  }

  /** The loop's test decides what the rule decides. */
  lemma TestTakes(patterns: seq<Pattern>, input: set<nat>, chosen: set<nat>, output: set<nat>, consumed: set<nat>, width: nat, target: nat)
    requires Tallied(patterns, chosen, output, consumed) && target < TARGETS && 2 <= width <= TARGETS
    ensures Takes(patterns, input, chosen, width, target) <==> Fits(patterns[target], input, consumed, width)
  {
    hide Consumed;
    var p := patterns[target];
    if p.Some? {
      DisjointMeans(p.value, consumed);
    }
  }

  lemma DisjointMeans(a: set<nat>, b: set<nat>)
    ensures a * b == {} <==> forall x :: x in a ==> x !in b
  {
    if a * b != {} {
      var x :| x in a * b;
    } else {
      forall x | x in a ensures x !in b { assert x !in a * b; }
    }
  }

  predicate Fits(pattern: Pattern, input: set<nat>, consumed: set<nat>, width: nat) {
    pattern.Some? && |pattern.value| == width && pattern.value * consumed == {} && pattern.value <= input
  }

  lemma NothingYet(patterns: seq<Pattern>, input: set<nat>)
    requires |patterns| == TARGETS
    ensures ChoiceSoFar(patterns, input, {}, TARGETS, 0) && Tallied(patterns, {}, {}, {})
  {
  }

  /** The choice of the rule, its buttons and its used-up bits. */
  ghost predicate Matched(patterns: seq<Pattern>, input: set<nat>, output: set<nat>, consumed: set<nat>) {
    exists chosen :: Choice(patterns, input, chosen) && Tallied(patterns, chosen, output, consumed)
  }

  /** Widest first, lowest button first, taking each pattern whose bits are pressed and not yet used. */
  method MatchPatterns(patterns: seq<Pattern>, input: set<nat>) returns (output: set<nat>, consumed: set<nat>)
    requires |patterns| == TARGETS
    ensures Matched(patterns, input, output, consumed)
  {
    hide ChoiceSoFar, Consumed, Tallied, Takes, Choice;
    output, consumed := {}, {};
    ghost var chosen: set<nat> := {};
    NothingYet(patterns, input);
    var width := TARGETS;
    while width >= 2
      invariant 1 <= width <= TARGETS
      invariant ChoiceSoFar(patterns, input, chosen, width, 0) && Tallied(patterns, chosen, output, consumed)
    {
      for target := 0 to TARGETS
        invariant ChoiceSoFar(patterns, input, chosen, width, target) && Tallied(patterns, chosen, output, consumed)
      {
        ghost var before := chosen;
        TestTakes(patterns, input, chosen, output, consumed, width, target);
        var pattern := patterns[target];
        if Fits(pattern, input, consumed, width) {
          TallyMore(patterns, chosen, output, consumed, target);
          output := output + {BIT[target]};
          consumed := consumed + pattern.value;
          chosen := chosen + {target};
        }
        ChoiceStep(patterns, input, before, width, target, chosen);
      }
      NextWidth(patterns, input, chosen, width);
      width := width - 1;
    }
    Finished(patterns, input, chosen);
  }

  lemma Finished(patterns: seq<Pattern>, input: set<nat>, chosen: set<nat>)
    requires ChoiceSoFar(patterns, input, chosen, 1, 0)
    ensures Choice(patterns, input, chosen)
  {
    forall i | Pressed(patterns, input, i) ensures Passed(patterns, 1, 0, i) {}
  }

  ghost predicate Mapped(patterns: seq<Pattern>, targets: seq<set<nat>>, input: set<nat>, chosen: set<nat>, k: nat, bit: nat)
    requires |targets| == BUTTONS && k <= BUTTONS
  {
    exists m :: 0 <= m < k && BIT[m] in input && !Consumed(patterns, chosen, BIT[m]) && bit in targets[m]
  }

  method ApplyButtons(patterns: seq<Pattern>, targets: seq<set<nat>>, input: set<nat>) returns (output: set<nat>)
    requires |patterns| == TARGETS && |targets| == BUTTONS
    ensures Applied(patterns, targets, input, output)
  {
    hide Choice, Consumed;
    var matched, consumed := MatchPatterns(patterns, input);
    ghost var chosen :| Choice(patterns, input, chosen) && Tallied(patterns, chosen, matched, consumed);
    output := matched;
    for k := 0 to BUTTONS
      invariant forall bit :: bit in output <==> bit in matched || Mapped(patterns, targets, input, chosen, k, bit)
    {
      var source := BIT[k];
      if source in input && source !in consumed { output := output + targets[k]; }
    }
    output := output + set bit | bit in input && bit !in BIT;
    assert forall bit :: bit in output <==> Emitted(patterns, targets, input, chosen, bit);
  }

  // ---- triggers and axes ---------------------------------------------------------------------

  function Quotient(a: nat, d: nat): nat
    requires d > 0
  {
    a / d
  }

  function ScaleTrigger(value: Byte, threshold: Byte): (r: Byte)
  {
    if value < threshold then 0
    else if threshold == 255 then value
    else
      var scaled := Quotient((value - threshold) * 255, 255 - threshold);
      if scaled == 0 && value != 0 then 1 else if scaled > 255 then 255 else scaled
  }

  /** A trigger reads zero exactly below its threshold or at rest, full at full travel, and never falls on the way. */
  lemma TriggerShape(v: Byte, w: Byte, threshold: Byte)
    ensures ScaleTrigger(v, threshold) == 0 <==> v < threshold || v == 0
    ensures ScaleTrigger(255, threshold) == 255
    ensures v <= w ==> ScaleTrigger(v, threshold) <= ScaleTrigger(w, threshold)
  {
    if threshold < 255 {
      DivExact(255, 255 - threshold, 0, (255 - threshold) * 255);
      if threshold <= v <= w { DivMonotone((v - threshold) * 255, (w - threshold) * 255, 255 - threshold); }
    }
  }

  datatype Binding = Binding(center: int, minimum: int, maximum: int, up: bool)

  /** How far the value is from the centre, in the binding's direction. */
  function Directed(b: Binding, value: int): int { if b.up then value - b.center else b.center - value }

  function Reach(b: Binding): int { if b.up then b.maximum - b.center else b.center - b.minimum }

  function Retreat(b: Binding): int { if b.up then b.center - b.minimum else b.maximum - b.center }

  /** d of p, rounded to steps of k. */
  function Rounded(d: nat, p: nat, k: nat): (r: nat)
    requires d <= p && p > 0
    ensures r <= k
  {
    RoundedBound(d, p, k);
    (d * k + p / 2) / p
  }

  lemma RoundedBound(d: nat, p: nat, k: nat)
    requires d <= p && p > 0
    ensures (d * k + p / 2) / p <= k
  {
    MultipleStep(d, p, k);
    DivExact(k, p, p / 2, p * k + p / 2);
    DivMonotone(d * k + p / 2, p * k + p / 2, p);
  }

  lemma RoundedMonotone(d: nat, e: nat, p: nat, k: nat)
    requires d <= e <= p && p > 0
    ensures Rounded(d, p, k) <= Rounded(e, p, k)
  {
    MultipleStep(d, e, k);
    DivMonotone(d * k + p / 2, e * k + p / 2, p);
  }

  function BoundAxis(b: Binding, trigger: bool, value: int): (r: Byte)
  {
    var d, reach, retreat := Directed(b, value), Reach(b), Retreat(b);
    if trigger then
      if d <= 0 || reach <= 0 then 0 else if d >= reach then 255 else Rounded(d, reach, 255)
    else if d >= 0 then
      if reach <= 0 then 128 else if d >= reach then 255 else 128 + Rounded(d, reach, 127)
    else
      if retreat <= 0 then 128 else if -d >= retreat then 0 else 128 - Rounded(-d, retreat, 128)
  }

  /** A bound axis rests at its centre, is full at its end, and follows its direction without ever turning back. */
  lemma BoundAxisShape(b: Binding, trigger: bool, v: int, w: int)
    ensures BoundAxis(b, trigger, b.center) == if trigger then 0 else 128
    ensures Reach(b) > 0 && Directed(b, v) >= Reach(b) ==> BoundAxis(b, trigger, v) == 255
    ensures !trigger && Retreat(b) > 0 && -Directed(b, v) >= Retreat(b) ==> BoundAxis(b, trigger, v) == 0
    ensures Directed(b, v) <= Directed(b, w) ==> BoundAxis(b, trigger, v) <= BoundAxis(b, trigger, w)
  {
    hide Rounded;
    var d, e, reach, retreat := Directed(b, v), Directed(b, w), Reach(b), Retreat(b);
    if reach > 0 {
      RoundedZero(reach);
      if 0 <= d <= e <= reach {
        RoundedMonotone(d, e, reach, 255);
        RoundedMonotone(d, e, reach, 127);
      }
    }
    if retreat > 0 && d <= e < 0 && -d <= retreat { RoundedMonotone(-e, -d, retreat, 128); }
  }

  lemma RoundedZero(p: nat)
    requires p > 0
    ensures Rounded(0, p, 127) == 0
  {
    DivExact(0, p, p / 2, p / 2);
  }

  const AXES: nat := 6
  const L2_AXIS: nat := 4
  const R2_AXIS: nat := 5

  /** Which axis feeds another, and how. */
  datatype Feed = Feed(source: int, binding: Binding)

  /** The value of an axis after binding, from the values of all axes before. */
  function Fed(feed: Option<Feed>, target: nat, axes: seq<Byte>): Byte
    requires target < AXES == |axes|
  {
    if feed.Some? && 0 <= feed.value.source < AXES
    then BoundAxis(feed.value.binding, target == L2_AXIS || target == R2_AXIS, axes[feed.value.source])
    else axes[target]
  }

  /** Two axes may feed each other: none sees another's new value. */
  method ApplyAxisBindings(feeds: seq<Option<Feed>>, axes: seq<Byte>) returns (out: seq<Byte>)
    requires |feeds| == |axes| == AXES
    ensures |out| == AXES && forall t :: 0 <= t < AXES ==> out[t] == Fed(feeds[t], t, axes)
  {
    hide BoundAxis;
    out := axes;
    for target := 0 to AXES
      invariant |out| == AXES
      invariant forall t :: 0 <= t < AXES ==> out[t] == if t < target then Fed(feeds[t], t, axes) else axes[t]
    {
      var feed := feeds[target];
      if feed.Some? && 0 <= feed.value.source < AXES {
        out := out[target := BoundAxis(feed.value.binding, target == L2_AXIS || target == R2_AXIS, axes[feed.value.source])];
      }
    }
  }

  /** A stick's two axes, from its two axes as bound. */
  ghost predicate Curved(c: Sticks.Curve, root: real -> real, x: Byte, y: Byte, newX: Byte, newY: Byte) {
    && c.Tuned()
    && var m := root(Sticks.Square(Sticks.ToUnit(x), Sticks.ToUnit(y)));
    newX == Sticks.StickAxis(x, c.invertX, m, c) && newY == Sticks.StickAxis(y, c.invertY, m, c)
  }

  /** What an enabled profile makes of buttons and axes: axes are bound first, then the triggers scaled and the sticks
      bent; the triggers' own button bits follow their scaled travel. */
  ghost predicate Profiled(patterns: seq<Pattern>, targets: seq<set<nat>>, feeds: seq<Option<Feed>>, buttons: set<nat>,
                           axes: seq<Byte>, thresholds: (Byte, Byte), curves: (Sticks.Curve, Sticks.Curve), root: real -> real,
                           output: set<nat>, out: seq<Byte>)
    requires |targets| == BUTTONS && |feeds| == |axes| == AXES
  {
    && |out| == AXES
    && Curved(curves.0, root, Fed(feeds[0], 0, axes), Fed(feeds[1], 1, axes), out[0], out[1])
    && Curved(curves.1, root, Fed(feeds[2], 2, axes), Fed(feeds[3], 3, axes), out[2], out[3])
    && out[L2_AXIS] == ScaleTrigger(Fed(feeds[L2_AXIS], L2_AXIS, axes), thresholds.0)
    && out[R2_AXIS] == ScaleTrigger(Fed(feeds[R2_AXIS], R2_AXIS, axes), thresholds.1)
    && var left := TriggerInput(buttons, L2, out[L2_AXIS], thresholds.0);
    Applied(patterns, targets, TriggerInput(left, R2, out[R2_AXIS], thresholds.1), output)
  }

  /** Left before right in thresholds and curves. */
  method ApplyProfile(enabled: bool, patterns: seq<Pattern>, targets: seq<set<nat>>, feeds: seq<Option<Feed>>,
                      buttons: set<nat>, axes: seq<Byte>, thresholds: (Byte, Byte), curves: (Sticks.Curve, Sticks.Curve),
                      root: real -> real)
    returns (output: set<nat>, out: seq<Byte>)
    requires |patterns| == TARGETS && |targets| == BUTTONS && |feeds| == |axes| == AXES
    requires curves.0.Tuned() && curves.1.Tuned()
    ensures !enabled ==> output == buttons && out == axes
    ensures enabled ==> Profiled(patterns, targets, feeds, buttons, axes, thresholds, curves, root, output, out)
  {
    hide Applied, ScaleTrigger, BoundAxis, Fed, Sticks.StickAxis, Sticks.Square, Sticks.ToUnit;
    if !enabled { return buttons, axes; }
    out := ApplyAxisBindings(feeds, axes);
    var left, right := ScaleTrigger(out[L2_AXIS], thresholds.0), ScaleTrigger(out[R2_AXIS], thresholds.1);
    out := out[L2_AXIS := left][R2_AXIS := right];
    var input := buttons - {L2, R2};
    if left != 0 || (thresholds.0 == 0 && L2 in buttons) { input := input + {L2}; }
    if right != 0 || (thresholds.1 == 0 && R2 in buttons) { input := input + {R2}; }
    assert input == TriggerInput(TriggerInput(buttons, L2, left, thresholds.0), R2, right, thresholds.1);
    output := ApplyButtons(patterns, targets, input);
    var leftX, leftY := Sticks.ApplyStick(out[0], out[1], curves.0, root);
    var rightX, rightY := Sticks.ApplyStick(out[2], out[3], curves.1, root);
    out := [leftX, leftY, rightX, rightY, left, right];
  }

  /** A trigger's button is down when it has travel left, or was down and has no threshold. */
  function TriggerInput(buttons: set<nat>, bit: nat, travel: Byte, threshold: Byte): set<nat> {
    if travel != 0 || (threshold == 0 && bit in buttons) then buttons + {bit} else buttons - {bit}
  }
}
