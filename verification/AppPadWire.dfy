/** The wire form of the application pad contract: decimal fields separated by bars, scanned within a fixed bound. */
module AppPadWire {
  import opened Controllers
  import ControllersFile
  import opened AppPad
  import opened Wrappers

  const WIRE_MAX: nat := 512
  const INT_MAX: int := 0x7fff_ffff
  const UINT_MAX: nat := 0xffff_ffff

  // ---- scanning ------------------------------------------------------------------------------

  predicate IsDigit(c: char) { '0' <= c <= '9' }

  /** Digits from `pos` on, added to x; refused when the number would not fit 64 bits. */
  function Digits(s: string, pos: nat, x: nat): Option<(nat, nat)>
    requires pos <= |s|
    decreases |s| - pos
  {
    if pos < WIRE_MAX && pos < |s| && IsDigit(s[pos]) then
      var d := s[pos] as nat - '0' as nat;
      if x > (UINT64_MAX - d) / 10 then None else Digits(s, pos + 1, x * 10 + d)
    else Some((x, pos))
  }

  /** One field: its value and the position after it. */
  function Field(s: string, pos: nat, signed_: bool): Option<(int, nat)>
    requires pos <= |s|
  {
    var negative := pos < |s| && s[pos] == '-' && signed_;
    var from := if negative then pos + 1 else pos;
    if pos >= WIRE_MAX || from >= WIRE_MAX || from >= |s| || !IsDigit(s[from]) then None
    else
      match Digits(s, from, 0)
      case None => None
      case Some((x, after)) =>
        if after >= WIRE_MAX then None
        else if !signed_ then Some((x as int, after))
        else if x > (if negative then INT_MAX + 1 else INT_MAX) then None
        else
          var v: int := x;
          Some((if negative then -v else v, after))
  }

  lemma {:induction false} DigitsInside(s: string, pos: nat, x: nat)
    requires pos <= |s| && Digits(s, pos, x).Some?
    ensures pos <= Digits(s, pos, x).value.1 <= |s|
    decreases |s| - pos
  {
    if pos < WIRE_MAX && pos < |s| && IsDigit(s[pos]) {
      DigitsInside(s, pos + 1, x * 10 + (s[pos] as nat - '0' as nat));
    }
  }

  lemma FieldInside(s: string, pos: nat, signed_: bool)
    requires pos <= |s| && Field(s, pos, signed_).Some?
    ensures pos <= Field(s, pos, signed_).value.1 <= |s|
  {
    DigitsInside(s, if s[pos] == '-' && signed_ then pos + 1 else pos, 0);
  }

  /** Fields i to n of the text; which of them may be negative is given by their number. */
  function Fields(s: string, pos: nat, i: nat, n: nat, signed_: set<nat>): Option<seq<int>>
    requires pos <= |s| && i <= n
    decreases n - i
  {
    if i == n then Some([])
    else
      match Field(s, pos, i in signed_)
      case None => None
      case Some((v, after)) =>
        FieldInside(s, pos, i in signed_);
        if i + 1 == n then (if after == |s| then Some([v]) else None)
        else if after == |s| || s[after] != '|' then None
        else
          match Fields(s, after + 1, i + 1, n, signed_)
          case None => None
          case Some(rest) => Some([v] + rest)
  }

  // ---- writing -------------------------------------------------------------------------------

  function Number10(v: int): string { if v < 0 then "-" + Decimal(-v) else Decimal(v) }

  function Join(vs: seq<int>): string {
    if vs == [] then "" else if |vs| == 1 then Number10(vs[0]) else Number10(vs[0]) + "|" + Join(vs[1..])
  }

  predicate InRange(v: int, signed_: bool) {
    if signed_ then -INT_MAX - 1 <= v <= INT_MAX else 0 <= v <= UINT64_MAX
  }

  /** The values fit fields i, i + 1 and so on. */
  predicate AllInRange(vs: seq<int>, i: nat, signed_: set<nat>) {
    forall k :: 0 <= k < |vs| ==> InRange(vs[k], i + k in signed_)
  }

  lemma RangeTail(vs: seq<int>, i: nat, signed_: set<nat>)
    requires vs != [] && AllInRange(vs, i, signed_)
    ensures InRange(vs[0], i in signed_) && AllInRange(vs[1..], i + 1, signed_)
  {
    hide InRange;
    assert InRange(vs[0], i + 0 in signed_);
    forall k | 0 <= k < |vs| - 1 ensures InRange(vs[1..][k], i + 1 + k in signed_) {
      assert InRange(vs[k + 1], i + (k + 1) in signed_);
    }
  }

  function Ten(k: nat): nat { if k == 0 then 1 else 10 * Ten(k - 1) }

  lemma {:induction false} DecimalShort(v: nat, k: nat)
    requires k >= 1 && v < Ten(k)
    ensures |Decimal(v)| <= k
  {
    if v >= 10 {
      assert Ten(k) == 10 * Ten(k - 1);
      DecimalShort(v / 10, k - 1);
    }
  }

  lemma NumberShort(v: int, signed_: bool)
    requires InRange(v, signed_)
    ensures 1 <= |Number10(v)| <= 20
  {
    assert Ten(10) == 100_0000_0000 && Ten(20) == 1_0000_0000_0000_0000_0000;
    if v < 0 {
      DecimalShort(-v, 10);
      ControllersFile.NumberDecimal(-v);
    } else {
      DecimalShort(v, 20);
      ControllersFile.NumberDecimal(v);
    }
  }

  lemma {:induction false} JoinShort(vs: seq<int>, i: nat, signed_: set<nat>)
    requires AllInRange(vs, i, signed_)
    ensures |Join(vs)| <= 21 * |vs|
    decreases |vs|
  {
    if vs != [] {
      RangeTail(vs, i, signed_);
      NumberShort(vs[0], i in signed_);
      JoinShort(vs[1..], i + 1, signed_);
    }
  }

  // ---- round trip ----------------------------------------------------------------------------

  /** t stands in s at `pos`. */
  predicate Stands(s: string, pos: nat, t: string) { pos + |t| <= |s| && s[pos..pos + |t|] == t }

  lemma {:induction false} NumberPrefix(t: string, i: nat)
    requires i <= |t| && Number(t, 10).Some?
    ensures Number(t[..i], 10).Some? && Number(t[..i], 10).value <= Number(t, 10).value
    decreases |t|
  {
    if i < |t| {
      NumberPrefix(t[..|t| - 1], i);
      assert t[..|t| - 1][..i] == t[..i];
    } else {
      assert t[..i] == t;
    }
  }

  lemma {:induction false} DigitsRead(s: string, pos: nat, t: string, i: nat)
    requires Stands(s, pos, t) && i <= |t| && pos + |t| < WIRE_MAX
    requires Number(t, 10).Some? && Number(t, 10).value <= UINT64_MAX && forall k :: 0 <= k < |t| ==> IsDigit(t[k])
    requires pos + |t| == |s| || !IsDigit(s[pos + |t|])
    ensures Number(t[..i], 10).Some?
    ensures Digits(s, pos + i, Number(t[..i], 10).value) == Some((Number(t, 10).value, pos + |t|))
    decreases |t| - i
  {
    NumberPrefix(t, i);
    if i < |t| {
      NumberPrefix(t, i + 1);
      var more := t[..i + 1];
      assert more[..i] == t[..i] && more[i] == t[i];
      assert s[pos + i] == s[pos..pos + |t|][i];
      assert DigitValue(t[i]) == t[i] as nat - '0' as nat;
      DigitsRead(s, pos, t, i + 1);
    } else {
      assert t[..i] == t;
    }
  }

  lemma DecimalDigits(v: nat)
    ensures forall k :: 0 <= k < |Decimal(v)| ==> IsDigit(Decimal(v)[k])
  {
    ControllersFile.NumberDecimal(v);
    forall k | 0 <= k < |Decimal(v)| ensures IsDigit(Decimal(v)[k]) {
      var d :| 0 <= d < 10 && Decimal(v)[k] == Digit(d);
    }
  }

  lemma DecimalReads(s: string, from: nat, m: nat)
    requires Stands(s, from, Decimal(m)) && from + |Decimal(m)| < WIRE_MAX && m <= UINT64_MAX
    requires from + |Decimal(m)| == |s| || !IsDigit(s[from + |Decimal(m)|])
    ensures Digits(s, from, 0) == Some((m, from + |Decimal(m)|)) && |Decimal(m)| > 0 && IsDigit(s[from])
  {
    hide Decimal, Digits;
    DecimalDigits(m);
    ControllersFile.NumberDecimal(m);
    var t := Decimal(m);
    assert s[from] == s[from..from + |t|][0];
    assert t[..0] == "";
    DigitsRead(s, from, t, 0);
  }

  lemma FieldReads(s: string, pos: nat, v: int, signed_: bool)
    requires InRange(v, signed_) && Stands(s, pos, Number10(v)) && pos + |Number10(v)| < WIRE_MAX
    requires pos + |Number10(v)| == |s| || !IsDigit(s[pos + |Number10(v)|])
    ensures Field(s, pos, signed_) == Some((v, pos + |Number10(v)|))
  {
    hide Decimal, Digits;
    var t := Number10(v);
    assert t != "" ==> s[pos] == s[pos..pos + |t|][0];
    if v < 0 {
      var digits := Decimal(-v);
      assert t[1..] == digits;
      assert s[pos + 1..pos + 1 + |digits|] == s[pos..pos + |t|][1..];
      DecimalReads(s, pos + 1, -v);
    } else {
      DecimalReads(s, pos, v);
    }
  }

  /** What is written comes back, wherever it stands in a text. */
  lemma {:induction false} FieldsRead(s: string, pos: nat, vs: seq<int>, i: nat, signed_: set<nat>)
    requires vs != [] && pos <= |s| < WIRE_MAX && s[pos..] == Join(vs)
    requires AllInRange(vs, i, signed_)
    ensures Fields(s, pos, i, i + |vs|, signed_) == Some(vs)
    decreases |vs|
  {
    hide Field, Number10, InRange, AllInRange;
    var t := Number10(vs[0]);
    RangeTail(vs, i, signed_);
    if |vs| == 1 {
      assert s[pos..] == t && pos + |t| == |s|;
      FieldReads(s, pos, vs[0], i in signed_);
      assert vs == [vs[0]];
    } else {
      var rest := Join(vs[1..]);
      assert s[pos..] == t + "|" + rest;
      assert s[pos..pos + |t|] == s[pos..][..|t|] == t;
      assert s[pos + |t|] == s[pos..][|t|] == '|';
      assert s[pos + |t| + 1..] == s[pos..][|t| + 1..] == rest;
      FieldReads(s, pos, vs[0], i in signed_);
      FieldsRead(s, pos + |t| + 1, vs[1..], i + 1, signed_);
      assert vs == [vs[0]] + vs[1..];
    }
  }

  /** Round trip: up to twenty values in range always fit and read back as themselves. */
  lemma FieldsJoin(vs: seq<int>, signed_: set<nat>)
    requires 0 < |vs| <= 20 && AllInRange(vs, 0, signed_)
    ensures Fields(Join(vs), 0, 0, |vs|, signed_) == Some(vs)
  {
    hide AllInRange, Join, Fields;
    JoinShort(vs, 0, signed_);
    assert Join(vs)[0..] == Join(vs);
    FieldsRead(Join(vs), 0, vs, 0, signed_);
  }

  // ---- replies -------------------------------------------------------------------------------

  function EventNumber(e: EventState): nat {
    match e
    case IdleEvent => 0
    case Pending => 1
    case Started => 2
    case Complete => 3
    case Failed => 4
    case Cancelled => 5
    case Expired => 6
  }

  function EventOf(n: nat): EventState {
    if n == 0 then IdleEvent else if n == 1 then Pending else if n == 2 then Started else if n == 3 then Complete
    else if n == 4 then Failed else if n == 5 then Cancelled else Expired
  }

  /** The twenty fields of a reply, in wire order. */
  function ReplyFields(r: Reply): seq<int> {
    [r.boot, r.revision, r.light.enabled, r.light.effect, r.light.period, r.light.step, r.light.r, r.light.g, r.light.b, r.lease,
     r.eventId, EventNumber(r.event), r.ttl, r.motors.large, r.motors.small, r.motors.on, r.motors.off, r.motors.repeats,
     if r.stop then 1 else 0, r.generation]
  }

  /** The wire order of a reply, and the number of each state. */
  lemma WireOrder()
    ensures ReplyFields(Reply(10, 11, Light(12, 13, 14, 15, 16, 17, 18), 19, 20, Complete, 22, Motors(23, 24, 25, 26, 27), true, 29))
         == [10, 11, 12, 13, 14, 15, 16, 17, 18, 19, 20, 3, 22, 23, 24, 25, 26, 27, 1, 29]
    ensures [EventNumber(IdleEvent), EventNumber(Pending), EventNumber(Started), EventNumber(Complete), EventNumber(Failed),
             EventNumber(Cancelled), EventNumber(Expired)] == [0, 1, 2, 3, 4, 5, 6]
  {
  }

  predicate FitsInt(vs: seq<int>, from: nat, to: nat)
    requires to < |vs|
  {
    forall k :: from <= k <= to ==> vs[k] <= UINT_MAX
  }

  /** What the application makes of a reply: strict fields, then the checks on each. */
  function ParseReply(s: string): Option<Reply> {
    match Fields(s, 0, 0, 20, {})
    case None => None
    case Some(v) =>
      if |v| != 20 || (exists k :: 0 <= k < 20 && v[k] < 0) || !FitsInt(v, 2, 9) || !FitsInt(v, 11, 18) then None
      else ReplyOf(v)
  }

  function ReplyOf(v: seq<int>): Option<Reply>
    requires |v| == 20 && forall k :: 0 <= k < 20 ==> v[k] >= 0
  {
    var light := Light(v[2], v[3], v[4], v[5], v[6], v[7], v[8]);
    var motors := Motors(v[13], v[14], v[15], v[16], v[17]);
    if v[0] == 0 || v[1] == 0 || v[19] == 0 || !LightValid(light) || v[9] != LEASE || v[11] > 6 || v[12] > TTL || v[18] > 1
       || v[13] > 255 || v[14] > 255
       || (v[10] != 0 && (v[15] == 0 || v[15] > 2000 || v[16] > 2000 || v[17] == 0 || v[17] > 16 || Duration(motors) > 10000))
    then None
    else Some(Reply(v[0], v[1], light, v[9], v[10], EventOf(v[11]), v[12], motors, v[18] == 1, v[19]))
  }

  /** The bounds every reply keeps. */
  predicate WireOk(r: Reply) {
    && 1 <= r.boot <= UINT64_MAX && 1 <= r.revision <= UINT64_MAX && 1 <= r.generation <= UINT64_MAX && LightValid(r.light)
    && r.lease == LEASE && r.eventId <= UINT64_MAX && r.ttl <= TTL
    && ((r.motors == Motors(0, 0, 0, 0, 0) && r.eventId == 0) || MotorsValid(r.motors))
  }

  lemma WireFields(r: Reply)
    requires WireOk(r)
    ensures var v := ReplyFields(r);
      && AllInRange(v, 0, {}) && (forall k :: 0 <= k < 20 ==> v[k] >= 0) && FitsInt(v, 2, 9) && FitsInt(v, 11, 18)
      && ReplyOf(v) == Some(r)
  {
    hide Duration;
  }

  lemma ReplyBounds(s: State, clock: nat, now: nat, p: Poll)
    requires Ok(s, clock) && clock <= now && PollValid(s, now, p)
    requires s.boot <= UINT64_MAX && p.generation <= UINT64_MAX
    ensures WireOk(ReplyTo(s, now, p))
  {
    hide Taken, Duration;
    TakenOk(s, clock, now, p);
    TakenKeeps(s, clock, now, p);
  }

  lemma TakenKeeps(s: State, clock: nat, now: nat, p: Poll)
    requires Ok(s, clock) && clock <= now && p.session != 0
    ensures var t := Taken(s, now, p); t.boot == s.boot && t.revision == s.revision && t.light == s.light
  {
    hide Duration, LightValid, MotorsValid;
  }

  /** The core's clients and the core agree: every reply a poll can get is accepted and read as it was meant. */
  lemma ReplyReads(s: State, clock: nat, now: nat, p: Poll)
    requires Ok(s, clock) && clock <= now && PollValid(s, now, p)
    requires s.boot <= UINT64_MAX && p.generation <= UINT64_MAX
    ensures var r := ReplyTo(s, now, p); ParseReply(Join(ReplyFields(r))) == Some(r)
  {
    hide Join, Fields, ReplyTo, Ok, PollValid;
    var r := ReplyTo(s, now, p);
    ReplyBounds(s, clock, now, p);
    WireFields(r);
    FieldsJoin(ReplyFields(r), {});
  }

  // ---- the scan ------------------------------------------------------------------------------

  /** One pass over the text with a moving position and a checked accumulator. */
  method ScanFields(s: string, n: nat, signed_: set<nat>) returns (r: Option<seq<int>>)
    requires n > 0
    ensures r == Fields(s, 0, 0, n, signed_)
  {
    hide Digits;
    var pos: nat, values: seq<int> := 0, [];
    PrependNone(Fields(s, 0, 0, n, signed_));
    for i := 0 to n
      invariant pos <= |s| && |values| == i && (i < n || pos == |s|)
      invariant Fields(s, 0, 0, n, signed_) == Prepend(values, Fields(s, pos, i, n, signed_))
    {
      var value, after := 0, 0;
      var negative := pos < |s| && s[pos] == '-' && i in signed_;
      if pos >= WIRE_MAX { return None; }
      var from := if negative then pos + 1 else pos;
      if from >= WIRE_MAX || from >= |s| || !IsDigit(s[from]) { return None; }
      var ok, x, at := ScanDigits(s, from);
      if !ok || at >= WIRE_MAX { return None; }
      if i in signed_ && x > (if negative then INT_MAX + 1 else INT_MAX) { return None; }
      value := x;
      if negative { value := -value; }
      after := at;
      assert Field(s, pos, i in signed_) == Some((value, after));
      if i + 1 < n {
        if after == |s| || s[after] != '|' { return None; }
        after := after + 1;
      } else if after != |s| {
        return None;
      }
      assert [value] + [] == [value];
      assert Fields(s, pos, i, n, signed_) == Prepend([value], Fields(s, after, i + 1, n, signed_));
      PrependMore(values, value, Fields(s, after, i + 1, n, signed_));
      values := values + [value];
      pos := after;
    }
    r := Some(values);
    assert values + [] == values;
  }

  function Prepend(values: seq<int>, rest: Option<seq<int>>): Option<seq<int>> {
    match rest
    case None => None
    case Some(more) => Some(values + more)
  }

  lemma PrependNone(rest: Option<seq<int>>)
    ensures Prepend([], rest) == rest
  {
    if rest.Some? { assert [] + rest.value == rest.value; }
  }

  lemma PrependMore(values: seq<int>, v: int, rest: Option<seq<int>>)
    ensures Prepend(values, Prepend([v], rest)) == Prepend(values + [v], rest)
  {
    if rest.Some? { assert values + ([v] + rest.value) == values + [v] + rest.value; }
  }

  method ScanDigits(s: string, from: nat) returns (ok: bool, x: nat, at: nat)
    requires from <= |s|
    ensures Digits(s, from, 0) == if ok then Some((x, at)) else None
    ensures ok ==> from <= at <= |s|
  {
    x, at := 0, from;
    while at < WIRE_MAX && at < |s| && IsDigit(s[at])
      invariant from <= at <= |s| && Digits(s, from, 0) == Digits(s, at, x)
    {
      var d := s[at] as nat - '0' as nat;
      if x > (UINT64_MAX - d) / 10 { return false, 0, 0; }
      x := x * 10 + d;
      at := at + 1;
    }
    return true, x, at;
  }
}
