/** The latest value of every field a device has reported, kept across its reports. */
module HidState {
  import opened Bytes
  import opened HidLayout
  import opened HidInput
  import opened Sets
  import opened Wrappers

  datatype Source = Source(offset: nat, page: nat, usage: nat, bits: nat, report: nat, minimum: int, maximum: int)

  datatype Sample = Sample(source: Source, fieldOffset: nat, value: int, active: bool, isNull: bool)

  /** Where a field lives; the usage is not part of it, since an array reports a different one each time. */
  datatype Coordinate = Coordinate(offset: nat, report: nat, bits: nat, page: nat, minimum: int, maximum: int)

  function CoordinateOf(s: Sample): Coordinate {
    Coordinate(s.fieldOffset, s.source.report, s.source.bits, s.source.page, s.source.minimum, s.source.maximum)
  }

  function FieldCoordinate(f: Field): Coordinate {
    Coordinate(f.offset, f.report, f.bits, f.page, f.minimum, f.maximum)
  }

  // ---- one report ----------------------------------------------------------------------------

  /** The value as a 32-bit number, if the field is inside the report and the number fits. */
  function Reading(f: Field, data: seq<Byte>): Option<int>
    requires Sized(f)
  {
    if !Within(f, data) || Value(f, data) > INT32_MAX || Value(f, data) < -INT32_MAX - 1 then None else Some(Value(f, data))
  }

  function SampleOf(f: Field, value: int): Sample {
    var isNull := IsNull(f, value);
    var source := Source(if f.isArray then f.arrayBase else f.offset, f.page, f.usage, f.bits, f.report, f.minimum, f.maximum);
    if f.isArray then
      var usage := ArrayUsage(f, value, isNull);
      Sample(if usage > 0 then source.(usage := usage) else source, f.offset, value, usage > 0, isNull)
    else
      var active := if f.page == 9 || IsDpad(f) then !isNull && value != 0
                    else IsHat(f) && !isNull && HatMask(f, value) != {};
      Sample(source, f.offset, value, active, isNull)
  }

  /** Direction controls superseded by the other kind report nothing. */
  predicate Skipped(f: Field, d: Directions) {
    (f.page == 1 && f.usage == 0x39 && !d.hat) || (f.page == 1 && 0x90 <= f.usage <= 0x93 && !d.buttons)
  }

  /** The samples of a report in field order, or None if one cannot be read. */
  function Samples(fields: seq<Field>, d: Directions, report: nat, data: seq<Byte>): Option<seq<Sample>>
    requires forall i :: 0 <= i < |fields| ==> Sized(fields[i])
  {
    if fields == [] then Some([])
    else
      var last := fields[|fields| - 1];
      match Samples(fields[..|fields| - 1], d, report, data)
      case None => None
      case Some(front) =>
        if last.report != report || Skipped(last, d) then Some(front)
        else
          match Reading(last, data)
          case None => None
          case Some(value) => Some(front + [SampleOf(last, value)])
  }

  function Values(l: Layout, data: seq<Byte>): Option<seq<Sample>>
    requires LayoutOk(l)
  {
    if data == [] then None
    else
      var (report, body) := Report(l, data);
      match Samples(l.fields, DirectionsOf(l.fields, report), report, body)
      case None => None
      case Some(samples) => if samples == [] then None else Some(samples)
  }

  function Coordinates(fields: seq<Field>): set<Coordinate> {
    set i | 0 <= i < |fields| :: FieldCoordinate(fields[i])
  }

  predicate Distinct(values: seq<Sample>) {
    forall i, j :: 0 <= i < j < |values| ==> CoordinateOf(values[i]) != CoordinateOf(values[j])
  }

  predicate Inside(values: seq<Sample>, l: Layout) {
    forall i :: 0 <= i < |values| ==> CoordinateOf(values[i]) in Coordinates(l.fields)
  }

  lemma CoordinatesGrow(fields: seq<Field>)
    requires fields != []
    ensures Coordinates(fields) == Coordinates(fields[..|fields| - 1]) + {FieldCoordinate(fields[|fields| - 1])}
  {
    var n := |fields| - 1;
    forall c | c in Coordinates(fields) ensures c in Coordinates(fields[..n]) + {FieldCoordinate(fields[n])} {
      var i :| 0 <= i < |fields| && FieldCoordinate(fields[i]) == c;
      if i < n { assert fields[..n][i] == fields[i]; }
    }
    forall c | c in Coordinates(fields[..n]) ensures c in Coordinates(fields) {
      var i :| 0 <= i < n && FieldCoordinate(fields[..n][i]) == c;
      assert fields[i] == fields[..n][i];
    }
  }

  lemma {:induction false} CoordinatesFew(fields: seq<Field>)
    ensures |Coordinates(fields)| <= |fields|
  {
    if fields == [] {
      assert Coordinates(fields) == {};
    } else {
      CoordinatesFew(fields[..|fields| - 1]);
      CoordinatesGrow(fields);
    }
  }

  /** Fields of one report that share no bit give samples at different coordinates. */
  lemma {:induction false} SamplesDistinct(fields: seq<Field>, d: Directions, report: nat, data: seq<Byte>)
    requires forall i :: 0 <= i < |fields| ==> Sized(fields[i])
    requires forall i, j :: 0 <= i < j < |fields| ==> Apart(fields[i], fields[j])
    requires Samples(fields, d, report, data).Some?
    ensures var s := Samples(fields, d, report, data).value;
      Distinct(s) && forall i :: 0 <= i < |s| ==> CoordinateOf(s[i]) in Coordinates(fields)
  {
    hide Reading, SampleOf, Skipped, FieldCoordinate, Coordinates;
    if fields != [] {
      var n := |fields| - 1;
      SamplesDistinct(fields[..n], d, report, data);
      CoordinatesGrow(fields);
      if fields[n].report == report && !Skipped(fields[n], d) {
        var value := Reading(fields[n], data).value;
        SampleCoordinate(fields[n], value);
        LastApart(fields);
      }
    }
  }

  /** The field has a value for the report to show. */
  predicate Shows(f: Field, d: Directions, report: nat) { f.report == report && !Skipped(f, d) }

  /** A report has samples unless a field it should show cannot be read, and they are those of the fields it shows. */
  lemma {:induction false} SamplesAre(fields: seq<Field>, d: Directions, report: nat, data: seq<Byte>, s: Sample)
    requires forall i :: 0 <= i < |fields| ==> Sized(fields[i])
    ensures Samples(fields, d, report, data).None? <==>
      exists i :: 0 <= i < |fields| && Shows(fields[i], d, report) && Reading(fields[i], data).None?
    ensures Samples(fields, d, report, data).Some? ==>
      (s in Samples(fields, d, report, data).value <==>
         exists i :: 0 <= i < |fields| && Shows(fields[i], d, report) && Reading(fields[i], data).Some?
                     && s == SampleOf(fields[i], Reading(fields[i], data).value))
  {
    hide Reading, SampleOf, Skipped, Sized;
    if fields != [] {
      var n := |fields| - 1;
      SamplesAre(fields[..n], d, report, data, s);
      assert forall i :: 0 <= i < n ==> fields[..n][i] == fields[i];
    }
  }

  /** Samples and decoded pads agree: a button, direction or hat is active exactly when it alone would press something, an array
      names the button it selects, and a direction control that is left out of the samples has no effect on the pad. */
  lemma SampleMeaning(l: Layout, d: Directions, f: Field, data: seq<Byte>, pad: Pad)
    requires Sized(f) && Reading(f, data).Some? && pad.buttons == {}
    ensures var s := SampleOf(f, Reading(f, data).value); var pressed := ApplyField(l, d, f, data, pad).buttons;
      && s.value == Value(f, data)
      && (!f.isArray && (IsHat(f) || IsDpad(f) || (f.page == 9 && 1 <= f.usage <= BUTTONS)) ==>
            if Skipped(f, d) then ApplyField(l, d, f, data, pad) == pad else s.active <==> pressed != {})
      && (f.isArray ==>
            pressed == if s.active && 1 <= s.source.usage <= BUTTONS then {CANONICAL[s.source.usage - 1]} else {})
  {
    hide Value, Scaled, FourSticks, CombinedTrigger, HatMask, Within, ArrayUsage, IsNull;
  }

  lemma SampleCoordinate(f: Field, value: int)
    ensures CoordinateOf(SampleOf(f, value)) == FieldCoordinate(f)
  {
  }

  lemma LastApart(fields: seq<Field>)
    requires fields != [] && forall i :: 0 <= i < |fields| ==> Sized(fields[i])
    requires forall i, j :: 0 <= i < j < |fields| ==> Apart(fields[i], fields[j])
    ensures FieldCoordinate(fields[|fields| - 1]) !in Coordinates(fields[..|fields| - 1])
  {
    var n := |fields| - 1;
    forall i | 0 <= i < n ensures FieldCoordinate(fields[..n][i]) != FieldCoordinate(fields[n]) {
      assert Apart(fields[i], fields[n]);
    }
  }

  lemma ValuesOk(l: Layout, data: seq<Byte>)
    requires LayoutOk(l) && Values(l, data).Some?
    ensures Distinct(Values(l, data).value) && Inside(Values(l, data).value, l)
  {
    hide DirectionsOf, Samples;
    var (report, body) := Report(l, data);
    SamplesDistinct(l.fields, DirectionsOf(l.fields, report), report, body);
  }

  // ---- across reports ------------------------------------------------------------------------

  function Lookup(values: seq<Sample>, c: Coordinate): Option<Sample> {
    if values == [] then None
    else if CoordinateOf(values[0]) == c then Some(values[0])
    else Lookup(values[1..], c)
  }

  /** The last sample at a coordinate in a history of reports. */
  function Latest(history: seq<seq<Sample>>, c: Coordinate): Option<Sample> {
    if history == [] then None
    else
      var last := Lookup(history[|history| - 1], c);
      if last.Some? then last else Latest(history[..|history| - 1], c)
  }

  lemma {:induction false} LookupAt(values: seq<Sample>, k: nat)
    requires Distinct(values) && k < |values|
    ensures Lookup(values, CoordinateOf(values[k])) == Some(values[k])
  {
    hide CoordinateOf;
    if k > 0 {
      assert values[1..][k - 1] == values[k];
      LookupAt(values[1..], k - 1);
    }
  }

  lemma {:induction false} LookupNone(values: seq<Sample>, c: Coordinate)
    ensures Lookup(values, c).None? <==> forall i :: 0 <= i < |values| ==> CoordinateOf(values[i]) != c
    ensures Lookup(values, c).Some? ==> Lookup(values, c).value in values && CoordinateOf(Lookup(values, c).value) == c
  {
    hide CoordinateOf;
    if values != [] {
      LookupNone(values[1..], c);
      assert forall i :: 0 < i < |values| ==> values[i] == values[1..][i - 1];
      assert forall i :: 0 <= i < |values| - 1 ==> values[1..][i] == values[i + 1];
    }
  }

  /** Storing one sample changes exactly its coordinate. */
  lemma StoreLookup(values: seq<Sample>, s: Sample, k: nat, next: seq<Sample>)
    requires Distinct(values) && k <= |values|
    requires forall i :: 0 <= i < k ==> CoordinateOf(values[i]) != CoordinateOf(s)
    requires k < |values| ==> CoordinateOf(values[k]) == CoordinateOf(s)
    requires next == if k < |values| then values[k := s] else values + [s]
    ensures Distinct(next)
    ensures forall c :: Lookup(next, c) == if c == CoordinateOf(s) then Some(s) else Lookup(values, c)
  {
    hide CoordinateOf;
    assert next[k] == s && forall i :: 0 <= i < |values| && i != k ==> next[i] == values[i];
    assert Distinct(next) by {
      forall i, j | 0 <= i < j < |next| ensures CoordinateOf(next[i]) != CoordinateOf(next[j]) {
        if k < |values| {
          assert CoordinateOf(values[i]) == CoordinateOf(next[i]) && CoordinateOf(values[j]) == CoordinateOf(next[j]);
        }
      }
    }
    forall c ensures Lookup(next, c) == if c == CoordinateOf(s) then Some(s) else Lookup(values, c) {
      if c == CoordinateOf(s) {
        LookupAt(next, k);
      } else {
        LookupNone(values, c);
        LookupNone(next, c);
        if Lookup(values, c).Some? {
          var v := Lookup(values, c).value;
          var i :| 0 <= i < |values| && values[i] == v;
          assert next[i] == v;
          LookupAt(next, i);
        } else {
          assert forall i :: 0 <= i < |next| ==> CoordinateOf(next[i]) != c;
        }
      }
    }
  }

  function CoordinateSet(values: seq<Sample>): set<Coordinate> {
    set i | 0 <= i < |values| :: CoordinateOf(values[i])
  }

  lemma {:induction false} DistinctCount(values: seq<Sample>)
    requires Distinct(values)
    ensures |CoordinateSet(values)| == |values|
  {
    hide CoordinateOf;
    if values == [] {
      assert CoordinateSet(values) == {};
    } else {
      var n := |values| - 1;
      DistinctCount(values[..n]);
      assert CoordinateSet(values) == CoordinateSet(values[..n]) + {CoordinateOf(values[n])} by {
        forall c | c in CoordinateSet(values) ensures c in CoordinateSet(values[..n]) + {CoordinateOf(values[n])} {
          var i :| 0 <= i < |values| && CoordinateOf(values[i]) == c;
          if i < n { assert values[..n][i] == values[i]; }
        }
        forall c | c in CoordinateSet(values[..n]) ensures c in CoordinateSet(values) {
          var i :| 0 <= i < n && CoordinateOf(values[..n][i]) == c;
          assert values[i] == values[..n][i];
        }
      }
      assert CoordinateOf(values[n]) !in CoordinateSet(values[..n]);
    }
  }

  /** There is always room: a coordinate not yet stored is one of the layout's at most 96. */
  lemma RoomForNew(values: seq<Sample>, s: Sample, l: Layout)
    requires LayoutOk(l) && Distinct(values) && Inside(values, l) && CoordinateOf(s) in Coordinates(l.fields)
    requires forall i :: 0 <= i < |values| ==> CoordinateOf(values[i]) != CoordinateOf(s)
    ensures |values| < MAX_FIELDS
  {
    hide CoordinateOf, FieldCoordinate;
    var next := values + [s];
    assert Distinct(next);
    DistinctCount(next);
    forall c | c in CoordinateSet(next) ensures c in Coordinates(l.fields) {
      var i :| 0 <= i < |next| && CoordinateOf(next[i]) == c;
      if i < |values| { assert next[i] == values[i]; }
    }
    SubsetSize(CoordinateSet(next), Coordinates(l.fields));
    CoordinatesFew(l.fields);
  }

  // ---- the operations ------------------------------------------------------------------------

  method ReadValues(l: Layout, data: seq<Byte>) returns (r: Option<seq<Sample>>)
    requires LayoutOk(l)
    ensures r == Values(l, data)
  {
    hide Apart, Claimed, DirectionsOf, ArrayMask, SampleOf, Reading, Skipped;
    if data == [] { return None; }
    var report, body := if l.numbered then data[0] else 0, if l.numbered then data[1..] else data;
    var _, d := Survey(l.fields, report);
    var used: seq<Sample> := [];
    for i := 0 to |l.fields|
      invariant Samples(l.fields[..i], d, report, body) == Some(used)
    {
      assert l.fields[..i + 1][..i] == l.fields[..i] && l.fields[..i + 1][i] == l.fields[i];
      var f := l.fields[i];
      if f.report != report || Skipped(f, d) { continue; }
      var value := Reading(f, body);
      if value.None? {
        SamplesStuck(l.fields, i + 1, d, report, body);
        return None;
      }
      used := used + [SampleOf(f, value.value)];
    }
    assert l.fields[..|l.fields|] == l.fields;
    r := if used == [] then None else Some(used);
  }

  lemma {:induction false} SamplesStuck(fields: seq<Field>, n: nat, d: Directions, report: nat, data: seq<Byte>)
    requires n <= |fields| && forall i :: 0 <= i < |fields| ==> Sized(fields[i])
    requires Samples(fields[..n], d, report, data).None?
    ensures Samples(fields, d, report, data).None?
    decreases |fields|
  {
    hide Reading, SampleOf, Skipped, Sized;
    if n < |fields| {
      assert fields[..|fields| - 1][..n] == fields[..n];
      SamplesStuck(fields[..|fields| - 1], n, d, report, data);
    } else {
      assert fields[..n] == fields;
    }
  }

  /** The values of one device, decoded with one layout; `history` is the accepted reports, oldest first. */
  class HidState {
    const layout: Layout
    var values: seq<Sample>
    ghost var history: seq<seq<Sample>>

    ghost predicate Ok()
      reads this
    {
      && LayoutOk(layout) && Distinct(values) && Inside(values, layout) && |values| <= MAX_FIELDS
      && forall c :: Lookup(values, c) == Latest(history, c)
    }

    constructor (layout: Layout)
      requires LayoutOk(layout)
      ensures Ok() && values == [] && history == [] && this.layout == layout
    {
      this.layout, values, history := layout, [], [];
    }

    /** Takes every readable report: the room check inside never refuses one. */
    method Update(data: seq<Byte>) returns (ok: bool)
      requires Ok()
      modifies this
      ensures Ok() && ok == Values(layout, data).Some?
      ensures history == if ok then old(history) + [Values(layout, data).value] else old(history)
      ensures !ok ==> values == old(values)
    {
      hide LayoutOk, Values, CoordinateOf, Coordinates;
      var current := ReadValues(layout, data);
      if current.None? { return false; }
      ValuesOk(layout, data);
      var samples := current.value;
      ghost var was := values;
      LookupEmpty(samples);
      for index := 0 to |samples|
        invariant history == old(history)
        invariant Distinct(values) && Inside(values, layout) && |values| <= MAX_FIELDS
        invariant Overlaid(values, samples[..index], was)
      {
        ghost var before, s := values, samples[index];
        var stored := 0;
        while stored < |values| && CoordinateOf(values[stored]) != CoordinateOf(samples[index])
          invariant stored <= |values| && values == before && history == old(history)
          invariant forall i :: 0 <= i < stored ==> CoordinateOf(values[i]) != CoordinateOf(samples[index])
        {
          stored := stored + 1;
        }
        if stored == |values| {
          RoomForNew(values, s, layout);
          if |values| == MAX_FIELDS { return false; }
          values := values + [samples[index]];
        } else {
          values := values[stored := samples[index]];
        }
        UpdateStep(was, before, samples, index, stored, values);
      }
      assert samples[..|samples|] == samples;
      history := history + [samples];
      HistoryAppend(old(history), samples);
      return true;
    }
  }

  lemma LookupEmpty(samples: seq<Sample>)
    ensures forall c :: Lookup(samples[..0], c) == None
  {
  }

  /** What is stored is the samples taken so far over what was there before. */
  ghost predicate Overlaid(values: seq<Sample>, taken: seq<Sample>, was: seq<Sample>) {
    forall c :: Lookup(values, c) == if Lookup(taken, c).Some? then Lookup(taken, c) else Lookup(was, c)
  }

  lemma UpdateStep(was: seq<Sample>, before: seq<Sample>, samples: seq<Sample>, n: nat, k: nat, next: seq<Sample>)
    requires n < |samples| && Distinct(samples) && Distinct(before) && k <= |before| && Overlaid(before, samples[..n], was)
    requires forall i :: 0 <= i < k ==> CoordinateOf(before[i]) != CoordinateOf(samples[n])
    requires k < |before| ==> CoordinateOf(before[k]) == CoordinateOf(samples[n])
    requires next == if k < |before| then before[k := samples[n]] else before + [samples[n]]
    ensures Distinct(next) && Overlaid(next, samples[..n + 1], was)
  {
    hide Lookup, CoordinateOf;
    StoreLookup(before, samples[n], k, next);
    LookupAppend(samples, n);
    var more := samples[..n + 1];
    forall c ensures Lookup(next, c) == if Lookup(more, c).Some? then Lookup(more, c) else Lookup(was, c) {
      assert Lookup(before, c) == if Lookup(samples[..n], c).Some? then Lookup(samples[..n], c) else Lookup(was, c);
      assert Lookup(more, c) == if c == CoordinateOf(samples[n]) then Some(samples[n]) else Lookup(samples[..n], c);
    }
  }

  lemma LookupAppend(samples: seq<Sample>, n: nat)
    requires n < |samples| && Distinct(samples)
    ensures forall c ::
      Lookup(samples[..n + 1], c) == if c == CoordinateOf(samples[n]) then Some(samples[n]) else Lookup(samples[..n], c)
  {
    hide CoordinateOf;
    assert samples[..n + 1] == samples[..n] + [samples[n]];
    StoreLookup(samples[..n], samples[n], n, samples[..n + 1]);
  }

  lemma HistoryAppend(history: seq<seq<Sample>>, samples: seq<Sample>)
    ensures forall c ::
      Latest(history + [samples], c) == if Lookup(samples, c).Some? then Lookup(samples, c) else Latest(history, c)
  {
    assert (history + [samples])[..|history|] == history;
  }
}
