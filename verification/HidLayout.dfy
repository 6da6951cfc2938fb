/** Compiling a HID report descriptor into a layout of input fields.

    The item language is that of section 6.2.2 of the USB Device Class Definition for HID 1.11. Decoding reports relies
    on what is proved here: every field lies inside its report, has a range, and shares no bit with another. */
module HidLayout {
  import opened Bytes
  import opened Wrappers

  const MAX_FIELDS: nat := 96
  const MAX_BITS: nat := 8192
  const INT32_MAX: int := 0x7fff_ffff
  const UINT32: nat := 0x1_0000_0000

  datatype Field = Field(offset: nat, page: nat, usage: nat, arrayBase: nat, bits: nat, report: nat, minimum: int,
                         maximum: int, arrayUsageMin: nat, arrayUsageMax: nat, isArray: bool, nullState: bool)

  /** `raw` holds the fields no standard usage claimed; `axes` the generic axes 0x30 + n that were. */
  datatype Layout = Layout(fields: seq<Field>, raw: seq<Field>, numbered: bool, axes: set<nat>, l2Analog: bool,
                           r2Analog: bool)

  datatype Global = Global(page: nat, bits: nat, count: nat, report: Byte, minimum: int, maximum: int)

  /** Bits used so far, per report id. */
  type Offsets = s: seq<nat> | |s| == 256 witness seq(256, _ => 0)

  datatype Parser = Parser(g: Global, stack: seq<Global>, collections: seq<bool>, offsets: Offsets, usages: seq<nat>,
                           usageMin: nat, usageMax: nat, layout: Layout)

  datatype Item = Item(kind: nat, tag: nat, value: nat, bytes: nat)

  // ---- items ---------------------------------------------------------------------------------

  function LittleEndian(data: seq<Byte>): nat {
    if data == [] then 0 else data[0] + 256 * LittleEndian(data[1..])
  }

  lemma {:induction false} LittleEndianBound(data: seq<Byte>)
    requires |data| <= 4
    ensures LittleEndian(data) < UINT32
    ensures |data| <= 2 ==> LittleEndian(data) < 0x1_0000
    ensures |data| <= 1 ==> LittleEndian(data) < 0x100
  {
    if data != [] {
      LittleEndianBound(data[1..]);
      if |data| > 1 { LittleEndianBound(data[2..]); assert data[1..][1..] == data[2..]; }
      if |data| > 2 { LittleEndianBound(data[3..]); assert data[2..][1..] == data[3..]; }
      if |data| > 3 { LittleEndianBound(data[4..]); assert data[3..][1..] == data[4..]; }
    }
  }

  function PayloadSize(prefix: Byte): nat { if prefix % 4 == 3 then 4 else prefix % 4 }

  /** The item at `pos` and where the next one starts; long items and cut-off payloads are refused. */
  function ReadItem(data: seq<Byte>, pos: nat): Option<(Item, nat)>
    requires pos < |data|
  {
    var prefix := data[pos];
    var bytes := PayloadSize(prefix);
    if prefix == 0xfe || bytes > |data| - pos - 1 then None
    else Some((Item(prefix / 4 % 4, prefix / 16, LittleEndian(data[pos + 1..pos + 1 + bytes]), bytes), pos + 1 + bytes))
  }

  function ToInt32(v: nat): int { if v > INT32_MAX then v - UINT32 else v }

  function SignedItem(value: nat, bytes: nat): int {
    if bytes == 1 && value >= 0x80 then value - 0x100
    else if bytes == 2 && value >= 0x8000 then value - 0x1_0000
    else ToInt32(value)
  }

  function GlobalItem(p: Parser, item: Item): Option<Parser>
  {
    var g, v := p.g, item.value;
    match item.tag
    case 0 => Some(p.(g := g.(page := v)))
    case 1 => Some(p.(g := g.(minimum := SignedItem(v, item.bytes))))
    case 2 =>
      var maximum := if g.minimum < 0 then SignedItem(v, item.bytes) else if v > INT32_MAX then INT32_MAX else v;
      Some(p.(g := g.(maximum := maximum)))
    case 7 => Some(p.(g := g.(bits := v)))
    case 8 =>
      if v == 0 || v > 255 || (!p.layout.numbered && p.offsets[0] != 0) then None
      else Some(p.(g := g.(report := v), layout := p.layout.(numbered := true)))
    case 9 => Some(p.(g := g.(count := v)))
    case 10 => if |p.stack| == 8 then None else Some(p.(stack := p.stack + [g]))
    case 11 => if p.stack == [] then None else Some(p.(g := p.stack[|p.stack| - 1], stack := p.stack[..|p.stack| - 1]))
    case _ => Some(p)
  }

  function LocalItem(p: Parser, item: Item): Option<Parser> {
    match item.tag
    case 0 => if |p.usages| == 96 then None else Some(p.(usages := p.usages + [item.value]))
    case 1 => Some(p.(usageMin := item.value))
    case 2 => Some(p.(usageMax := item.value))
    case _ => Some(p)
  }

  function OpenCollection(p: Parser, value: nat): Option<Parser> {
    var depth := |p.collections|;
    if depth == 16 then None
    else
      var inherited := depth > 0 && p.collections[depth - 1];
      if value != 1 then Some(p.(collections := p.collections + [inherited]))
      else
        var full := if p.usages != [] then p.usages[0] else p.usageMin;
        var page := if full > 65535 then full / 65536 else p.g.page;
        var usage := full % 65536;
        if depth == 0 && page == 1 && 1 <= usage <= 7 && usage !in {4, 5} then None
        else Some(p.(collections := p.collections + [(page == 1 && usage in {4, 5, 8}) || (page == 2 && 1 <= usage <= 0x0c)]))
  }

  // ---- input items ---------------------------------------------------------------------------

  /** The usage of the i-th control of an Input item, still with its page if it carries one. */
  function UsageOf(p: Parser, i: nat): nat {
    if i < |p.usages| then p.usages[i]
    else if p.usageMax >= p.usageMin && i <= p.usageMax - p.usageMin then p.usageMin + i
    else 0
  }

  predicate VariableAbsolute(value: nat) { value % 8 == 2 }

  predicate ButtonArray(p: Parser, value: nat) {
    && value % 8 == 0 && p.g.page == 9 && p.usages == [] && 1 <= p.usageMin <= p.usageMax <= 0xffff
  }

  predicate StandardControl(page: nat, usage: nat) {
    || (page == 9 && usage >= 1)
    || (page == 1 && (0x30 <= usage <= 0x39 || 0x90 <= usage <= 0x93))
    || (page == 2 && usage in {0xba, 0xbb, 0xc4, 0xc5, 0xc8})
  }

  /** Adds the i-th control of an Input item, at bit `offset`. */
  function AddField(p: Parser, l: Layout, value: nat, i: nat, offset: nat): Option<Layout>
  {
    var full := UsageOf(p, i);
    var page := if full > 65535 then full / 65536 else p.g.page;
    var usage := full % 65536;
    var depth := |p.collections|;
    var array_ := ButtonArray(p, value);
    var claimed := depth > 0 && p.collections[depth - 1]
                   && ((VariableAbsolute(value) && StandardControl(page, usage)) || array_);
    var f := Field(offset, page % 65536, usage, 0, p.g.bits, p.g.report, p.g.minimum, p.g.maximum, 0, 0, false,
                   value / 0x40 % 2 == 1);
    if !claimed then
      if VariableAbsolute(value) && 1 <= p.g.bits <= 32 && p.g.maximum > p.g.minimum && |l.raw| < MAX_FIELDS
      then Some(l.(raw := l.raw + [f]))
      else Some(l)
    else if |l.fields| == MAX_FIELDS || p.g.maximum <= p.g.minimum then None
    else
      var g := f.(arrayBase := p.offsets[p.g.report]);
      var field := if array_ then g.(page := 9, usage := 0, arrayUsageMin := p.usageMin, arrayUsageMax := p.usageMax, isArray := true)
                   else g;
      Some(l.(fields := l.fields + [field],
              axes := if page == 1 && 0x30 <= usage <= 0x35 then l.axes + {usage - 0x30} else l.axes,
              l2Analog := l.l2Analog || (page == 2 && usage == 0xc5),
              r2Analog := l.r2Analog || (page == 2 && usage in {0xbb, 0xc4})))
  }

  function AddFields(p: Parser, l: Layout, value: nat, i: nat): Option<Layout>
    requires i <= p.g.count
    decreases p.g.count - i
  {
    if i == p.g.count then Some(l)
    else
      match AddField(p, l, value, i, p.offsets[p.g.report] + i * p.g.bits)
      case None => None
      case Some(next) => AddFields(p, next, value, i + 1)
  }

  predicate InputFits(p: Parser)
  {
    && (p.layout.numbered ==> p.g.report != 0)
    && 1 <= p.g.bits <= 32 && p.g.count <= 1024
    && p.g.bits * p.g.count <= MAX_BITS && p.offsets[p.g.report] + p.g.bits * p.g.count <= MAX_BITS
  }

  function InputItem(p: Parser, value: nat): Option<Parser>
  {
    if !InputFits(p) then None
    else
      match AddFields(p, p.layout, value, 0)
      case None => None
      case Some(l) =>
        var offsets: Offsets := p.offsets[p.g.report := p.offsets[p.g.report] + p.g.bits * p.g.count];
        Some(p.(layout := l, offsets := offsets))
  }

  function MainItem(p: Parser, item: Item): Option<Parser>
  {
    var next := if item.tag == 10 then OpenCollection(p, item.value)
                else if item.tag == 12 then
                  (if p.collections == [] then None else Some(p.(collections := p.collections[..|p.collections| - 1])))
                else if item.tag == 8 then InputItem(p, item.value)
                else Some(p);
    match next
    case None => None
    case Some(q) => Some(q.(usages := [], usageMin := 0, usageMax := 0))
  }

  function Apply(p: Parser, item: Item): Option<Parser>
  {
    if item.kind == 1 then GlobalItem(p, item)
    else if item.kind == 2 then LocalItem(p, item)
    else if item.kind == 0 then MainItem(p, item)
    else Some(p)
  }

  function Start(): Parser {
    Parser(Global(0, 0, 0, 0, 0, 0), [], [], seq(256, _ => 0), [], 0, 0, Layout([], [], false, {}, false, false))
  }

  // ---- what every layout satisfies -----------------------------------------------------------

  predicate Sized(f: Field) {
    && 1 <= f.bits <= 32 && f.report < 256 && f.offset + f.bits <= MAX_BITS
    && -INT32_MAX - 1 <= f.minimum < f.maximum <= INT32_MAX
  }

  /** A claimed field: a button selector, a button, a generic-desktop or a simulation control. */
  predicate Claimed(f: Field) {
    if f.isArray then f.page == 9 && 1 <= f.arrayUsageMin <= f.arrayUsageMax <= 0xffff && f.arrayBase <= f.offset
    else StandardControl(f.page, f.usage)
  }

  predicate Apart(f: Field, g: Field) {
    f.report != g.report || f.offset + f.bits <= g.offset || g.offset + g.bits <= f.offset
  }

  predicate Below(f: Field, report: nat, limit: nat) { f.report == report ==> f.offset + f.bits <= limit }

  ghost predicate LayoutOk(l: Layout) {
    && |l.fields| <= MAX_FIELDS && |l.raw| <= MAX_FIELDS
    && (forall i :: 0 <= i < |l.fields| ==> Sized(l.fields[i]) && Claimed(l.fields[i]))
    && (forall i :: 0 <= i < |l.raw| ==> Sized(l.raw[i]))
    && (forall i, j :: 0 <= i < j < |l.fields| ==> Apart(l.fields[i], l.fields[j]))
    && (forall i, j :: 0 <= i < j < |l.raw| ==> Apart(l.raw[i], l.raw[j]))
    && (forall i, j :: 0 <= i < |l.fields| && 0 <= j < |l.raw| ==> Apart(l.fields[i], l.raw[j]))
    && (forall i :: 0 <= i < |l.fields| ==> (l.numbered <==> l.fields[i].report != 0))
    && (forall i :: 0 <= i < |l.raw| ==> (l.numbered <==> l.raw[i].report != 0))
  }

  /** The fields so far end within what each report has used up. */
  ghost predicate Filled(l: Layout, report: nat, limit: nat) {
    && (forall i :: 0 <= i < |l.fields| ==> Below(l.fields[i], report, limit))
    && forall i :: 0 <= i < |l.raw| ==> Below(l.raw[i], report, limit)
  }

  ghost predicate GlobalOk(g: Global, numbered: bool) {
    && (!numbered ==> g.report == 0)
    && -INT32_MAX - 1 <= g.minimum <= INT32_MAX && -INT32_MAX - 1 <= g.maximum <= INT32_MAX
  }

  ghost predicate ParserOk(p: Parser) {
    && GlobalOk(p.g, p.layout.numbered)
    && (forall i :: 0 <= i < |p.stack| ==> GlobalOk(p.stack[i], p.layout.numbered))
    && LayoutOk(p.layout) && (forall r :: 0 <= r < 256 ==> p.offsets[r] <= MAX_BITS)
    && (forall r :: 0 <= r < 256 ==> Filled(p.layout, r, p.offsets[r]))
    && (!p.layout.numbered && p.offsets[0] == 0 ==> p.layout.fields == [] && p.layout.raw == [])
  }

  lemma StartOk()
    ensures ParserOk(Start())
  {
  }

  lemma GlobalKeeps(p: Parser, item: Item)
    requires ParserOk(p) && item.value < UINT32 && (item.bytes == 1 ==> item.value < 0x100)
    requires (item.bytes == 2 ==> item.value < 0x1_0000) && GlobalItem(p, item).Some?
    ensures ParserOk(GlobalItem(p, item).value)
  {
    hide Sized, Claimed, Apart, Below;
    if item.tag == 8 && !p.layout.numbered {
      assert p.layout.fields == [] && p.layout.raw == [];
    }
  }

  lemma LocalKeeps(p: Parser, item: Item)
    requires ParserOk(p) && LocalItem(p, item).Some?
    ensures ParserOk(LocalItem(p, item).value)
  {
    hide LayoutOk, Filled, GlobalOk;
  }

  lemma CollectionKeeps(p: Parser, value: nat)
    requires ParserOk(p) && OpenCollection(p, value).Some?
    ensures ParserOk(OpenCollection(p, value).value)
  {
    hide LayoutOk, Filled, GlobalOk;
  }

  /** A new field that starts where the report's used part ends. */
  ghost predicate Fresh(l: Layout, f: Field, limit: nat) {
    Sized(f) && Filled(l, f.report, limit) && f.offset == limit && (l.numbered <==> f.report != 0)
  }

  lemma AppendClaimed(l: Layout, f: Field, m: Layout)
    requires LayoutOk(l) && Fresh(l, f, f.offset) && Claimed(f) && |l.fields| < MAX_FIELDS
    requires m.fields == l.fields + [f] && m.raw == l.raw && m.numbered == l.numbered
    ensures LayoutOk(m) && Filled(m, f.report, f.offset + f.bits)
    ensures forall r, limit :: r != f.report && Filled(l, r, limit) ==> Filled(m, r, limit)
  {
    hide Sized, Claimed;
    SizedBits(f);
    FreshApart(l, f);
  }

  lemma AppendRaw(l: Layout, f: Field, m: Layout)
    requires LayoutOk(l) && Fresh(l, f, f.offset) && |l.raw| < MAX_FIELDS
    requires m.raw == l.raw + [f] && m.fields == l.fields && m.numbered == l.numbered
    ensures LayoutOk(m) && Filled(m, f.report, f.offset + f.bits)
    ensures forall r, limit :: r != f.report && Filled(l, r, limit) ==> Filled(m, r, limit)
  {
    hide Sized, Claimed;
    SizedBits(f);
    FreshApart(l, f);
  }

  lemma SizedBits(f: Field)
    requires Sized(f)
    ensures f.bits >= 1
  {
  }

  lemma FreshApart(l: Layout, f: Field)
    requires Fresh(l, f, f.offset)
    ensures forall i :: 0 <= i < |l.fields| ==> Apart(l.fields[i], f)
    ensures forall i :: 0 <= i < |l.raw| ==> Apart(l.raw[i], f) && Apart(f, l.raw[i])
  {
  }

  /** A field added at the end of what the report has used stays apart from all others. */
  lemma AddKeeps(p: Parser, l: Layout, value: nat, i: nat, offset: nat)
    requires ParserOk(p) && InputFits(p) && LayoutOk(l) && l.numbered == p.layout.numbered
    requires p.offsets[p.g.report] <= offset && offset + p.g.bits <= MAX_BITS && Filled(l, p.g.report, offset)
    requires AddField(p, l, value, i, offset).Some?
    ensures var m := AddField(p, l, value, i, offset).value;
      && LayoutOk(m) && m.numbered == l.numbered && Filled(m, p.g.report, offset + p.g.bits)
      && forall r, limit :: r != p.g.report && Filled(l, r, limit) ==> Filled(m, r, limit)
  {
    hide LayoutOk, Filled, AddField, Sized, Claimed, GlobalOk;
    FitsFacts(p);
    assert |l.fields| <= MAX_FIELDS by { Capacity(l); }
    AddedField(p, l, value, i, offset);
    var m := AddField(p, l, value, i, offset).value;
    if |m.fields| > |l.fields| {
      AppendClaimed(l, m.fields[|l.fields|], m);
    } else if |m.raw| > |l.raw| {
      AppendRaw(l, m.raw[|l.raw|], m);
    } else {
      FilledMore(l, m, p.g.report, offset, offset + p.g.bits);
    }
  }

  lemma Capacity(l: Layout)
    requires LayoutOk(l)
    ensures |l.fields| <= MAX_FIELDS
  {
  }

  lemma FilledMore(l: Layout, m: Layout, report: nat, limit: nat, more: nat)
    requires Filled(l, report, limit) && limit <= more && m.fields == l.fields && m.raw == l.raw
    ensures Filled(m, report, more) && (LayoutOk(l) && m.numbered == l.numbered ==> LayoutOk(m))
    ensures forall r, k :: Filled(l, r, k) ==> Filled(m, r, k)
  {
  }

  predicate At(f: Field, p: Parser, offset: nat) {
    && f.report == p.g.report && f.offset == offset && f.bits == p.g.bits && Sized(f)
    && (p.layout.numbered <==> f.report != 0)
  }

  lemma AddedField(p: Parser, l: Layout, value: nat, i: nat, offset: nat)
    requires ParserOk(p) && InputFits(p) && offset + p.g.bits <= MAX_BITS && p.offsets[p.g.report] <= offset
    requires AddField(p, l, value, i, offset).Some? && l.numbered == p.layout.numbered && |l.fields| <= MAX_FIELDS
    ensures var m := AddField(p, l, value, i, offset).value;
      && m.numbered == l.numbered
      && (m.fields == l.fields || (m.raw == l.raw && |m.fields| == |l.fields| + 1 <= MAX_FIELDS
                                   && m.fields == l.fields + [m.fields[|l.fields|]] && Claimed(m.fields[|l.fields|])
                                   && At(m.fields[|l.fields|], p, offset)))
      && (m.raw == l.raw || (m.fields == l.fields && |m.raw| == |l.raw| + 1 <= MAX_FIELDS
                             && m.raw == l.raw + [m.raw[|l.raw|]] && At(m.raw[|l.raw|], p, offset)))
  {
    hide UsageOf, LayoutOk, Filled;
    var m := AddField(p, l, value, i, offset).value;
    if |m.fields| > |l.fields| {
      var f := m.fields[|l.fields|];
      assert m.fields == l.fields + [f];
    }
  }

  lemma {:induction false} AddAllKeeps(p: Parser, l: Layout, value: nat, i: nat, base: nat, used: nat, total: nat)
    requires ParserOk(p) && InputFits(p) && LayoutOk(l) && l.numbered == p.layout.numbered && i <= p.g.count
    requires base == p.offsets[p.g.report] && used == i * p.g.bits && total == p.g.bits * p.g.count && base + total <= MAX_BITS
    requires used <= total && Filled(l, p.g.report, base + used)
    requires AddFields(p, l, value, i).Some?
    ensures var m := AddFields(p, l, value, i).value;
      && LayoutOk(m) && m.numbered == l.numbered && Filled(m, p.g.report, base + total)
      && forall r, limit :: r != p.g.report && Filled(l, r, limit) ==> Filled(m, r, limit)
    decreases p.g.count - i
  {
    hide LayoutOk, Filled, AddField, ParserOk, InputFits;
    if i < p.g.count {
      FitsFacts(p);
      RoomForOne(i, p.g.count, p.g.bits, used, total);
      AddKeeps(p, l, value, i, base + used);
      AddAllKeeps(p, AddField(p, l, value, i, base + used).value, value, i + 1, base, used + p.g.bits, total);
    } else {
      FitsFacts(p);
      assert used == total by { RoomExact(i, p.g.bits, used, total); }
    }
  }

  lemma FitsFacts(p: Parser)
    requires ParserOk(p) && InputFits(p)
    ensures 1 <= p.g.bits <= 32
    ensures !p.layout.numbered ==> p.g.report == 0
  {
  }

  lemma RoomForOne(i: nat, count: nat, bits: nat, used: nat, total: nat)
    requires i < count && used == i * bits && total == bits * count
    ensures used + bits == (i + 1) * bits <= total
  {
    assert (i + 1) * bits <= count * bits;
  }

  lemma RoomExact(count: nat, bits: nat, used: nat, total: nat)
    requires used == count * bits && total == bits * count
    ensures used == total
  {
  }

  lemma InputKeeps(p: Parser, value: nat)
    requires ParserOk(p) && InputItem(p, value).Some?
    ensures ParserOk(InputItem(p, value).value)
  {
    hide LayoutOk, Filled, AddFields, AddField, GlobalOk;
    FitsFacts(p);
    var total := p.g.bits * p.g.count;
    AddAllKeeps(p, p.layout, value, 0, p.offsets[p.g.report], 0, total);
    var m := AddFields(p, p.layout, value, 0).value;
    if total == 0 {
      assert p.g.count == 0 by { NoProduct(p.g.bits, p.g.count); }
      assert m == p.layout by { NoFields(p, value); }
    }
  }

  lemma NoProduct(a: nat, b: nat)
    requires a * b == 0 && a > 0
    ensures b == 0
  {
  }

  lemma NoFields(p: Parser, value: nat)
    requires p.g.count == 0
    ensures AddFields(p, p.layout, value, 0) == Some(p.layout)
  {
  }

  lemma ApplyKeeps(p: Parser, item: Item)
    requires ParserOk(p) && item.value < UINT32 && (item.bytes == 1 ==> item.value < 0x100)
    requires (item.bytes == 2 ==> item.value < 0x1_0000) && Apply(p, item).Some?
    ensures ParserOk(Apply(p, item).value)
  {
    hide LayoutOk, Filled, GlobalOk, GlobalItem, LocalItem, OpenCollection, InputItem;
    if item.kind == 1 {
      GlobalKeeps(p, item);
    } else if item.kind == 2 {
      LocalKeeps(p, item);
    } else if item.kind == 0 {
      if item.tag == 10 { CollectionKeeps(p, item.value); }
      if item.tag == 8 { InputKeeps(p, item.value); }
    }
  }

  // ---- whole descriptors ---------------------------------------------------------------------

  function Parse(data: seq<Byte>, pos: nat, p: Parser): Option<Parser>
    requires pos <= |data|
    decreases |data| - pos
  {
    if pos == |data| then Some(p)
    else
      match ReadItem(data, pos)
      case None => None
      case Some(read) =>
        match Apply(p, read.0)
        case None => None
        case Some(next) => Parse(data, read.1, next)
  }

  function LayoutOf(data: seq<Byte>): Option<Layout> {
    match Parse(data, 0, Start())
    case None => None
    case Some(p) =>
      if p.collections != [] || p.stack != [] || (p.layout.fields == [] && p.layout.raw == []) then None else Some(p.layout)
  }

  lemma ItemOk(data: seq<Byte>, pos: nat)
    requires pos < |data| && ReadItem(data, pos).Some?
    ensures var (item, _) := ReadItem(data, pos).value;
      && item.value < UINT32 && (item.bytes == 1 ==> item.value < 0x100) && (item.bytes == 2 ==> item.value < 0x1_0000)
  {
    LittleEndianBound(data[pos + 1..pos + 1 + PayloadSize(data[pos])]);
  }

  lemma {:induction false} ParseKeeps(data: seq<Byte>, pos: nat, p: Parser)
    requires pos <= |data| && ParserOk(p) && Parse(data, pos, p).Some?
    ensures ParserOk(Parse(data, pos, p).value)
    decreases |data| - pos
  {
    hide ParserOk, Apply, LittleEndian;
    if pos < |data| {
      var (item, next) := ReadItem(data, pos).value;
      ItemOk(data, pos);
      ApplyKeeps(p, item);
      ParseKeeps(data, next, Apply(p, item).value);
    }
  }

  /** Main result: every layout that is accepted, from any bytes whatever, is sound: at most 96 claimed and 96 raw
      fields, each of 1 to 32 bits with a range, inside its report and disjoint from every other. */
  lemma AcceptedLayoutOk(data: seq<Byte>)
    requires LayoutOf(data).Some?
    ensures LayoutOk(LayoutOf(data).value) && (LayoutOf(data).value.fields != [] || LayoutOf(data).value.raw != [])
  {
    hide LayoutOk, Apply, Parse;
    StartOk();
    ParseKeeps(data, 0, Start());
    ParserLayout(Parse(data, 0, Start()).value);
  }

  lemma ParserLayout(p: Parser)
    requires ParserOk(p)
    ensures LayoutOk(p.layout)
  {
  }

  // ---- the scan ------------------------------------------------------------------------------

  /** Collects a payload of up to four bytes, low byte first. */
  method ReadValue(data: seq<Byte>, pos: nat, bytes: nat) returns (value: nat)
    requires pos + bytes <= |data| && bytes <= 4
    ensures value == LittleEndian(data[pos..pos + bytes])
  {
    value := 0;
    var weight := 1;
    for i := 0 to bytes
      invariant weight > 0
      invariant value + weight * LittleEndian(data[pos + i..pos + bytes]) == LittleEndian(data[pos..pos + bytes])
    {
      var rest := data[pos + i..pos + bytes];
      assert rest[1..] == data[pos + i + 1..pos + bytes] && rest[0] == data[pos + i];
      Shift(value, weight, rest[0], LittleEndian(rest[1..]));
      value := value + weight * data[pos + i];
      weight := weight * 256;
    }
  }

  lemma Shift(value: nat, weight: nat, low: nat, high: nat)
    ensures value + weight * (low + 256 * high) == value + weight * low + (weight * 256) * high
  {
  }

  method AddControls(p: Parser, value: nat) returns (r: Option<Layout>)
    ensures r == AddFields(p, p.layout, value, 0)
  {
    hide AddField;
    var l := p.layout;
    var i := 0;
    while i < p.g.count
      invariant i <= p.g.count && AddFields(p, p.layout, value, 0) == AddFields(p, l, value, i)
    {
      var next := AddField(p, l, value, i, p.offsets[p.g.report] + i * p.g.bits);
      if next.None? { return None; }
      l := next.value;
      i := i + 1;
    }
    return Some(l);
  }

  /** Reads item after item; the parser's memory is the state that the items change. */
  method ParseDescriptor(data: seq<Byte>) returns (r: Option<Layout>)
    ensures r == LayoutOf(data)
    ensures r.Some? ==> LayoutOk(r.value)
  {
    hide LayoutOk, ParserOk, LittleEndian, GlobalItem, LocalItem, OpenCollection, AddFields, InputFits;
    var p := Start();
    var pos := 0;
    StartOk();
    while pos < |data|
      invariant pos <= |data| && ParserOk(p)
      invariant Parse(data, 0, Start()) == Parse(data, pos, p)
    {
      var prefix := data[pos];
      var at := pos;
      pos := pos + 1;
      if prefix == 0xfe { return None; }
      var bytes := PayloadSize(prefix);
      if bytes > |data| - pos { return None; }
      var value := ReadValue(data, pos, bytes);
      pos := pos + bytes;
      var kind, tag := prefix / 4 % 4, prefix / 16;
      var item := Item(kind, tag, value, bytes);
      assert ReadItem(data, at) == Some((item, pos));
      var next := Some(p);
      if kind == 1 {
        next := GlobalItem(p, item);
      } else if kind == 2 {
        next := LocalItem(p, item);
      } else if kind == 0 {
        if tag == 10 {
          next := OpenCollection(p, value);
        } else if tag == 12 {
          next := if p.collections == [] then None else Some(p.(collections := p.collections[..|p.collections| - 1]));
        } else if tag == 8 {
          if !InputFits(p) { return None; }
          var l := AddControls(p, value);
          if l.None? { return None; }
          var offsets: Offsets := p.offsets[p.g.report := p.offsets[p.g.report] + p.g.bits * p.g.count];
          next := Some(p.(layout := l.value, offsets := offsets));
        }
        if next.None? { return None; }
        next := Some(next.value.(usages := [], usageMin := 0, usageMax := 0));
      }
      assert next == Apply(p, item);
      if next.None? { return None; }
      ItemOk(data, at);
      ApplyKeeps(p, item);
      p := next.value;
    }
    if p.collections != [] || p.stack != [] || (p.layout.fields == [] && p.layout.raw == []) { return None; }
    ParserLayout(p);
    return Some(p.layout);
  }
}
