/** What a report descriptor says: its items survive their coding, an Input item adds exactly the controls it describes, and
    a plain gamepad's descriptor yields a layout that reads its sticks, hat and buttons. */
module Descriptors {
  import BitString
  import opened Bytes
  import opened HidInput
  import opened HidLayout
  import opened HidMeaning
  import opened Quotients
  import opened Wrappers

  // ---- items in bytes ------------------------------------------------------------------------

  function Coded(value: nat, bytes: nat): (data: seq<Byte>)
    ensures |data| == bytes
  {
    if bytes == 0 then [] else [value % 256] + Coded(value / 256, bytes - 1)
  }

  function Limit(bytes: nat): nat { if bytes == 0 then 1 else 256 * Limit(bytes - 1) }

  lemma {:induction false} CodedReads(value: nat, bytes: nat)
    requires value < Limit(bytes)
    ensures LittleEndian(Coded(value, bytes)) == value
  {
    if bytes > 0 {
      CodedReads(value / 256, bytes - 1);
      assert Coded(value, bytes)[1..] == Coded(value / 256, bytes - 1);
    }
  }

  /** A short item with a payload that holds its value. */
  predicate Short(item: Item) {
    && item.kind < 3 && item.tag < 16 && (item.bytes == 0 || item.bytes == 1 || item.bytes == 2 || item.bytes == 4)
    && item.value < Limit(item.bytes)
  }

  function ItemBytes(item: Item): (data: seq<Byte>)
    requires Short(item)
    ensures |data| == 1 + item.bytes
  {
    [item.tag * 16 + item.kind * 4 + if item.bytes == 4 then 3 else item.bytes] + Coded(item.value, item.bytes)
  }

  /** Reading what was coded gives the item back, wherever it stands. */
  lemma ItemReads(before: seq<Byte>, item: Item, after: seq<Byte>)
    requires Short(item)
    ensures ReadItem(before + ItemBytes(item) + after, |before|) == Some((item, |before| + 1 + item.bytes))
  {
    hide Limit, LittleEndian, Coded;
    var data, pos := before + ItemBytes(item) + after, |before|;
    CodedReads(item.value, item.bytes);
    assert data[pos] == ItemBytes(item)[0];
    assert data[pos + 1..pos + 1 + item.bytes] == Coded(item.value, item.bytes);
  }

  predicate AllShort(items: seq<Item>) { forall i :: 0 <= i < |items| ==> Short(items[i]) }

  function DescriptorOf(items: seq<Item>): seq<Byte>
    requires AllShort(items)
  {
    if items == [] then [] else ItemBytes(items[0]) + DescriptorOf(items[1..])
  }

  function ApplyItems(items: seq<Item>, p: Parser): Option<Parser> {
    if items == [] then Some(p)
    else
      match HidLayout.Apply(p, items[0])
      case None => None
      case Some(q) => ApplyItems(items[1..], q)
  }

  /** Main result: the bytes of any items are parsed as those items, one after the other. */
  lemma {:induction false} ItemsParse(before: seq<Byte>, items: seq<Item>, p: Parser)
    requires AllShort(items)
    ensures Parse(before + DescriptorOf(items), |before|, p) == ApplyItems(items, p)
    decreases |items|
  {
    hide HidLayout.Apply, ReadItem, ItemBytes;
    if items != [] {
      var item, rest := items[0], DescriptorOf(items[1..]);
      var data := before + DescriptorOf(items);
      assert data == before + ItemBytes(item) + rest;
      ItemReads(before, item, rest);
      if HidLayout.Apply(p, item).Some? {
        ItemsParse(before + ItemBytes(item), items[1..], HidLayout.Apply(p, item).value);
      }
    }
  }

  lemma {:induction false} ItemsThen(a: seq<Item>, b: seq<Item>, p: Parser, q: Parser)
    requires ApplyItems(a, p) == Some(q)
    ensures ApplyItems(a + b, p) == ApplyItems(b, q)
    decreases |a|
  {
    hide HidLayout.Apply;
    if a == [] {
      assert a + b == b;
    } else {
      assert (a + b)[1..] == a[1..] + b;
      ItemsThen(a[1..], b, HidLayout.Apply(p, a[0]).value, q);
    }
  }

  // ---- global and local items ----------------------------------------------------------------

  /** A one- or two-byte minimum is a two's complement number. */
  lemma SignedMeaning(value: nat, bytes: nat)
    requires (bytes == 1 && value < 0x100) || (bytes == 2 && value < 0x1_0000) || (bytes == 4 && value < UINT32)
    ensures var half, v := if bytes == 1 then 0x80 else if bytes == 2 then 0x8000 else 0x8000_0000, SignedItem(value, bytes);
      -half <= v < half && (v == value || v == value - 2 * half)
  {
  }

  predicate GlobalOnly(items: seq<Item>) { forall i :: 0 <= i < |items| ==> items[i].kind == 1 && items[i].tag in {0, 1, 2, 7, 8, 9} }

  lemma {:induction false} GlobalsKeep(items: seq<Item>, p: Parser)
    requires GlobalOnly(items) && ApplyItems(items, p).Some?
    ensures var q := ApplyItems(items, p).value; q.stack == p.stack && q.usages == p.usages && q.collections == p.collections
    ensures var q := ApplyItems(items, p).value; q.offsets == p.offsets && q.layout == p.layout.(numbered := q.layout.numbered)
    decreases |items|
  {
    if items != [] { GlobalsKeep(items[1..], HidLayout.Apply(p, items[0]).value); }
  }

  lemma PushPop(p: Parser, q: Parser)
    ensures |p.stack| < 8 ==> HidLayout.Apply(p, Item(1, 10, 0, 0)) == Some(p.(stack := p.stack + [p.g]))
    ensures q.stack != [] ==>
      HidLayout.Apply(q, Item(1, 11, 0, 0)) == Some(q.(g := q.stack[|q.stack| - 1], stack := q.stack[..|q.stack| - 1]))
  {
    hide MainItem, LocalItem;
  }

  /** What comes between a push and its pop leaves no trace on the global settings. */
  lemma PopRestores(items: seq<Item>, p: Parser)
    requires GlobalOnly(items) && |p.stack| < 8 && ApplyItems([Item(1, 10, 0, 0)] + items + [Item(1, 11, 0, 0)], p).Some?
    ensures ApplyItems([Item(1, 10, 0, 0)] + items + [Item(1, 11, 0, 0)], p).value.g == p.g
    ensures ApplyItems([Item(1, 10, 0, 0)] + items + [Item(1, 11, 0, 0)], p).value.stack == p.stack
  {
    hide HidLayout.Apply, GlobalOnly;
    var push, pop := Item(1, 10, 0, 0), Item(1, 11, 0, 0);
    var q := p.(stack := p.stack + [p.g]);
    assert ([push] + items + [pop])[1..] == items + [pop];
    PushPop(p, q);
    assert ApplyItems([push] + items + [pop], p) == ApplyItems(items + [pop], q);
    if ApplyItems(items, q).Some? {
      var r := ApplyItems(items, q).value;
      ItemsThen(items, [pop], q, r);
      GlobalsKeep(items, q);
      PushPop(p, r);
      assert [pop][1..] == [];
      assert ApplyItems([pop], r) == HidLayout.Apply(r, pop);
    } else {
      ItemsNone(items, [pop], q);
    }
  }

  lemma {:induction false} ItemsNone(a: seq<Item>, b: seq<Item>, p: Parser)
    requires ApplyItems(a, p).None?
    ensures ApplyItems(a + b, p).None?
    decreases |a|
  {
    hide HidLayout.Apply;
    assert (a + b)[1..] == a[1..] + b;
    if HidLayout.Apply(p, a[0]).Some? { ItemsNone(a[1..], b, HidLayout.Apply(p, a[0]).value); }
  }

  /** Usages apply to the next main item and no further. */
  lemma LocalsEnd(p: Parser, item: Item)
    requires item.kind == 0 && HidLayout.Apply(p, item).Some?
    ensures var q := HidLayout.Apply(p, item).value; q.usages == [] && q.usageMin == q.usageMax == 0 && q.g == p.g
  {
    hide AddFields, InputFits;
  }

  /** Every report counts its own bits: an item of one leaves the others' where they were. */
  lemma ReportsApart(p: Parser, item: Item, report: nat)
    requires HidLayout.Apply(p, item).Some? && report < 256 && report != p.g.report
    ensures HidLayout.Apply(p, item).value.offsets[report] == p.offsets[report]
  {
    hide AddFields, InputFits;
  }

  // ---- collections ---------------------------------------------------------------------------

  /** The usage that names a collection. */
  function Naming(p: Parser): nat { if p.usages != [] then p.usages[0] else p.usageMin }

  function PageIn(full: nat, page: nat): nat { if full >= 0x1_0000 then full / 0x1_0000 else page }

  /** Outermost mice, keyboards and keypads, and pointers, are refused; joysticks, gamepads and multi-axis controllers, and the
      simulation page's vehicles, have their controls claimed; inner collections that are no applications follow the one around
      them. */
  lemma CollectionMeaning(p: Parser, value: nat)
    ensures var depth, page, usage := |p.collections|, PageIn(Naming(p), p.g.page), Naming(p) % 0x1_0000;
      && (OpenCollection(p, value).None? <==> depth == 16 || (value == 1 && depth == 0 && page == 1 && usage in {1, 2, 3, 6, 7}))
      && (OpenCollection(p, value).Some? ==>
            var after := OpenCollection(p, value).value.collections;
            && |after| == depth + 1 && after[..depth] == p.collections
            && (after[depth] <==>
                  if value == 1 then (page == 1 && usage in {4, 5, 8}) || (page == 2 && 1 <= usage <= 12)
                  else depth > 0 && p.collections[depth - 1]))
  {
  }

  // ---- input items ---------------------------------------------------------------------------

  /** The usages listed go to the first controls, one each; the rest get those of the range, counted from the first control too,
      and beyond it none. */
  lemma UsageMeaning(p: Parser, i: nat)
    ensures i < |p.usages| ==> UsageOf(p, i) == p.usages[i]
    ensures i >= |p.usages| ==> UsageOf(p, i) == if p.usageMin + i <= p.usageMax then p.usageMin + i else 0
  {
  }

  /** The field of control i of an Input item: its place, what it is and its range. */
  function ControlField(p: Parser, value: nat, i: nat): Field {
    var full, base := UsageOf(p, i), p.offsets[p.g.report];
    Field(base + i * p.g.bits, PageIn(full, p.g.page) % 0x1_0000, full % 0x1_0000, base, p.g.bits, p.g.report, p.g.minimum, p.g.maximum, 0, 0,
          false, value / 0x40 % 2 == 1)
  }

  /** A standard control of a claimed collection. */
  predicate Standard(p: Parser, i: nat) {
    && p.collections != [] && p.collections[|p.collections| - 1]
    && StandardControl(PageIn(UsageOf(p, i), p.g.page), UsageOf(p, i) % 0x1_0000)
  }

  lemma AddControl(p: Parser, l: Layout, value: nat, i: nat)
    requires VariableAbsolute(value) && AddField(p, l, value, i, p.offsets[p.g.report] + i * p.g.bits).Some?
    ensures var m := AddField(p, l, value, i, p.offsets[p.g.report] + i * p.g.bits).value;
      && m.fields == (if Standard(p, i) then l.fields + [ControlField(p, value, i)] else l.fields) && m.numbered == l.numbered
      && (Standard(p, i) ==> m.raw == l.raw)
  {
    hide StandardControl;
  }

  /** The fields of controls i and on that are standard, in order. */
  function StandardFrom(p: Parser, value: nat, i: nat): seq<Field>
    decreases p.g.count - i
  {
    if i >= p.g.count then []
    else (if Standard(p, i) then [ControlField(p, value, i)] else []) + StandardFrom(p, value, i + 1)
  }

  lemma {:induction false} AddStandard(p: Parser, l: Layout, value: nat, i: nat)
    requires i <= p.g.count && VariableAbsolute(value) && AddFields(p, l, value, i).Some?
    ensures AddFields(p, l, value, i).value.fields == l.fields + StandardFrom(p, value, i)
    decreases p.g.count - i
  {
    hide AddField, Standard, ControlField;
    if i < p.g.count {
      AddControl(p, l, value, i);
      AddStandard(p, AddField(p, l, value, i, p.offsets[p.g.report] + i * p.g.bits).value, value, i + 1);
    }
  }

  lemma {:induction false} StandardAre(p: Parser, value: nat, i: nat, f: Field)
    ensures f in StandardFrom(p, value, i) <==> exists j: nat :: i <= j < p.g.count && Standard(p, j) && f == ControlField(p, value, j)
    decreases p.g.count - i
  {
    hide Standard, ControlField;
    if i < p.g.count {
      StandardAre(p, value, i + 1, f);
      if Standard(p, i) { assert [ControlField(p, value, i)] + StandardFrom(p, value, i + 1) == StandardFrom(p, value, i); }
    }
  }

  /** Main result: an accepted Input item of variables adds to the claimed fields exactly the fields of its standard controls,
      keeps those before, and uses up its bits of the report. */
  lemma InputMeaning(p: Parser, value: nat, f: Field)
    requires InputItem(p, value).Some? && VariableAbsolute(value)
    ensures var q := InputItem(p, value).value;
      && |q.layout.fields| >= |p.layout.fields| && q.layout.fields[..|p.layout.fields|] == p.layout.fields
      && (f in q.layout.fields[|p.layout.fields|..] <==> exists i: nat :: i < p.g.count && Standard(p, i) && f == ControlField(p, value, i))
      && q.offsets[p.g.report] == p.offsets[p.g.report] + p.g.bits * p.g.count
  {
    hide AddFields, Standard, ControlField;
    AddStandard(p, p.layout, value, 0);
    StandardAre(p, value, 0, f);
  }

  /** It is accepted if it fits, has a range, and leaves at most 96 claimed fields. */
  lemma {:induction false} InputAccepted(p: Parser, l: Layout, value: nat, i: nat)
    requires i <= p.g.count && p.g.maximum > p.g.minimum && |l.fields| + p.g.count - i <= MAX_FIELDS
    ensures AddFields(p, l, value, i).Some?
    decreases p.g.count - i
  {
    if i < p.g.count {
      InputAccepted(p, AddField(p, l, value, i, p.offsets[p.g.report] + i * p.g.bits).value, value, i + 1);
    }
  }

  /** A selector array of a claimed collection gives one array field for each of its places, over the whole usage range. */
  function SelectorField(p: Parser, value: nat, i: nat): Field {
    var base := p.offsets[p.g.report];
    Field(base + i * p.g.bits, 9, 0, base, p.g.bits, p.g.report, p.g.minimum, p.g.maximum, p.usageMin, p.usageMax, true, value / 0x40 % 2 == 1)
  }

  lemma {:induction false} AddSelectors(p: Parser, l: Layout, value: nat, i: nat)
    requires i <= p.g.count && ButtonArray(p, value) && p.collections != [] && p.collections[|p.collections| - 1]
    requires AddFields(p, l, value, i).Some?
    ensures AddFields(p, l, value, i).value.fields == l.fields + seq(p.g.count - i, k requires k >= 0 => SelectorField(p, value, i + k))
    decreases p.g.count - i
  {
    if i < p.g.count {
      var m := AddField(p, l, value, i, p.offsets[p.g.report] + i * p.g.bits).value;
      AddSelectors(p, m, value, i + 1);
      assert m.fields == l.fields + [SelectorField(p, value, i)];
    }
  }

  lemma ArrayInput(p: Parser, value: nat)
    requires InputItem(p, value).Some? && ButtonArray(p, value) && p.collections != [] && p.collections[|p.collections| - 1]
    ensures InputItem(p, value).value.layout.fields
         == p.layout.fields + seq(p.g.count, k requires k >= 0 => SelectorField(p, value, k))
  {
    hide AddFields, ButtonArray, SelectorField;
    AddSelectors(p, p.layout, value, 0);
  }

  /** A variable that is claimed by nobody is kept as a raw field, as long as there is room. */
  lemma RawControl(p: Parser, l: Layout, value: nat, i: nat)
    requires VariableAbsolute(value) && !Standard(p, i) && 1 <= p.g.bits <= 32 && p.g.maximum > p.g.minimum && |l.raw| < MAX_FIELDS
    ensures AddField(p, l, value, i, p.offsets[p.g.report] + i * p.g.bits)
         == Some(l.(raw := l.raw + [ControlField(p, value, i).(arrayBase := 0)]))
  {
    hide StandardControl;
  }

  /** Constants, and arrays and relative controls that are not selectors, take up room and give no field. */
  lemma NoControl(p: Parser, l: Layout, value: nat, i: nat, offset: nat)
    requires !VariableAbsolute(value) && !ButtonArray(p, value)
    ensures AddField(p, l, value, i, offset) == Some(l)
  {
  }

  // ---- what a layout knows of itself ---------------------------------------------------------

  lemma AccurateAdd(p: Parser, l: Layout, value: nat, i: nat, offset: nat)
    requires Accurate(l) && AddField(p, l, value, i, offset).Some?
    ensures Accurate(AddField(p, l, value, i, offset).value)
  {
    var m := AddField(p, l, value, i, offset).value;
    forall page, usage ensures HasControl(m.fields, page, usage) <==>
      || HasControl(l.fields, page, usage)
      || (|m.fields| > |l.fields| && !m.fields[|l.fields|].isArray && m.fields[|l.fields|].page == page && m.fields[|l.fields|].usage == usage)
    {
      ControlMore(l.fields, m.fields, page, usage);
    }
  }

  lemma ControlMore(a: seq<Field>, b: seq<Field>, page: nat, usage: nat)
    requires b == a || (|b| == |a| + 1 && b[..|a|] == a)
    ensures HasControl(b, page, usage) <==>
      HasControl(a, page, usage) || (|b| > |a| && !b[|a|].isArray && b[|a|].page == page && b[|a|].usage == usage)
  {
    if i :| 0 <= i < |a| && !a[i].isArray && a[i].page == page && a[i].usage == usage {
      assert b[i] == a[i];
    }
  }

  lemma {:induction false} AccurateAll(p: Parser, l: Layout, value: nat, i: nat)
    requires i <= p.g.count && Accurate(l) && AddFields(p, l, value, i).Some?
    ensures Accurate(AddFields(p, l, value, i).value)
    decreases p.g.count - i
  {
    hide AddField, Accurate;
    if i < p.g.count {
      var offset := p.offsets[p.g.report] + i * p.g.bits;
      AccurateAdd(p, l, value, i, offset);
      AccurateAll(p, AddField(p, l, value, i, offset).value, value, i + 1);
    }
  }

  lemma AccurateItem(p: Parser, item: Item)
    requires Accurate(p.layout) && HidLayout.Apply(p, item).Some?
    ensures Accurate(HidLayout.Apply(p, item).value.layout)
  {
    hide AddFields, InputFits;
    if item.kind == 0 && item.tag == 8 { AccurateAll(p, p.layout, item.value, 0); }
  }

  lemma {:induction false} AccurateParse(data: seq<Byte>, pos: nat, p: Parser)
    requires pos <= |data| && Accurate(p.layout) && Parse(data, pos, p).Some?
    ensures Accurate(Parse(data, pos, p).value.layout)
    decreases |data| - pos
  {
    hide HidLayout.Apply, Accurate;
    if pos < |data| {
      var (item, next) := ReadItem(data, pos).value;
      AccurateItem(p, item);
      AccurateParse(data, next, HidLayout.Apply(p, item).value);
    }
  }

  /** Every accepted layout knows exactly which axes and analog triggers it has. */
  lemma AcceptedAccurate(data: seq<Byte>)
    requires LayoutOf(data).Some?
    ensures Accurate(LayoutOf(data).value)
  {
    hide Parse;
    assert Accurate(Start().layout);
    AccurateParse(data, 0, Start());
  }

  // ---- a plain gamepad -----------------------------------------------------------------------

  function Sticks(): seq<Item> {
    [Item(1, 0, 1, 1), Item(2, 0, 5, 1), Item(0, 10, 1, 1), Item(2, 0, 0x30, 1), Item(2, 0, 0x31, 1), Item(1, 1, 0, 1), Item(1, 2, 255, 2),
     Item(1, 7, 8, 1), Item(1, 9, 2, 1), Item(0, 8, 2, 1)]
  }

  function Hat(): seq<Item> {
    [Item(2, 0, 0x39, 1), Item(1, 2, 7, 1), Item(1, 7, 4, 1), Item(1, 9, 1, 1), Item(0, 8, 0x42, 1), Item(0, 8, 3, 1)]
  }

  function Buttons(n: nat): seq<Item> {
    [Item(1, 0, 9, 1), Item(2, 1, 1, 1), Item(2, 2, n, 1), Item(1, 2, 1, 1), Item(1, 7, 1, 1), Item(1, 9, n, 1), Item(0, 8, 2, 1), Item(0, 12, 0, 0)]
  }

  /** One stick of two bytes, a hat of half a byte and n buttons of one bit each, in an application collection. */
  function Gamepad(n: nat): seq<Item> { Sticks() + Hat() + Buttons(n) }

  function ButtonField(i: nat): Field { Field(24 + i, 9, i + 1, 24, 1, 0, 0, 1, 0, 0, false, false) }

  function StickFields(): seq<Field> {
    [Field(0, 1, 0x30, 0, 8, 0, 0, 255, 0, 0, false, false), Field(8, 1, 0x31, 0, 8, 0, 0, 255, 0, 0, false, false)]
  }

  function HatOf(): Field { Field(16, 1, 0x39, 16, 4, 0, 0, 7, 0, 0, false, true) }

  function GamepadLayout(n: nat): Layout {
    Layout(StickFields() + [HatOf()] + seq(n, i requires i >= 0 => ButtonField(i)), [], false, {0, 1}, false, false)
  }

  /** The parser inside the collection. */
  function Inside(g: Global, used: nat, fields: seq<Field>): Parser {
    var offsets: Offsets := seq(256, _ => 0)[0 := used];
    Parser(g, [], [true], offsets, [], 0, 0, Layout(fields, [], false, {0, 1}, false, false))
  }

  lemma ItemNext(items: seq<Item>, p: Parser, q: Parser)
    requires items != [] && HidLayout.Apply(p, items[0]) == Some(q)
    ensures ApplyItems(items, p) == ApplyItems(items[1..], q)
  {
    hide HidLayout.Apply;
  }

  lemma SettingNext(items: seq<Item>, p: Parser, q: Parser)
    requires items != [] && items[0].kind == 1 && GlobalItem(p, items[0]) == Some(q)
    ensures ApplyItems(items, p) == ApplyItems(items[1..], q)
  {
    hide GlobalItem;
  }

  lemma LocalNext(items: seq<Item>, p: Parser, q: Parser)
    requires items != [] && items[0].kind == 2 && LocalItem(p, items[0]) == Some(q)
    ensures ApplyItems(items, p) == ApplyItems(items[1..], q)
  {
    hide LocalItem;
  }

  /** An Input item with its fields known. */
  lemma InputNext(items: seq<Item>, p: Parser, l: Layout, q: Parser)
    requires items != [] && items[0].kind == 0 && items[0].tag == 8 && InputFits(p) && AddFields(p, p.layout, items[0].value, 0) == Some(l)
    requires var offsets: Offsets := p.offsets[p.g.report := p.offsets[p.g.report] + p.g.bits * p.g.count];
      q == p.(layout := l, offsets := offsets, usages := [], usageMin := 0, usageMax := 0)
    ensures ApplyItems(items, p) == ApplyItems(items[1..], q)
  {
    hide AddFields, InputFits;
  }

  lemma SticksParse()
    ensures ApplyItems(Sticks(), Start()) == Some(Inside(Global(1, 8, 2, 0, 0, 255), 16, StickFields()))
  {
    hide GlobalItem, LocalItem, AddFields, ApplyItems;
    var items := Sticks();
    var zero: Offsets := seq(256, _ => 0);
    var none := Layout([], [], false, {}, false, false);
    assert Start() == Parser(Global(0, 0, 0, 0, 0, 0), [], [], zero, [], 0, 0, none);
    var begun := Parser(Global(1, 0, 0, 0, 0, 0), [], [true], zero, [], 0, 0, none);
    assert ApplyItems(items, Start()) == ApplyItems(items[3..], begun) by { SticksOpen(); }
    var ready := begun.(g := Global(1, 8, 2, 0, 0, 255), usages := [0x30, 0x31]);
    assert ApplyItems(items[3..], begun) == ApplyItems(items[9..], ready) by { SticksSettings(begun); }
    var done := Inside(ready.g, 16, StickFields());
    SticksFields(ready);
    InputNext(items[9..], ready, done.layout, done);
    assert items[9..][1..] == [];
    EndOf(done);
  }

  lemma EndOf(p: Parser)
    ensures ApplyItems([], p) == Some(p)
  {
  }

  lemma SticksOpen()
    ensures var zero: Offsets := seq(256, _ => 0);
      ApplyItems(Sticks(), Start())
      == ApplyItems(Sticks()[3..], Parser(Global(1, 0, 0, 0, 0, 0), [], [true], zero, [], 0, 0, Layout([], [], false, {}, false, false)))
  {
    hide AddFields, ApplyItems;
    var items, p := Sticks(), Start();
    var a := p.(g := Global(1, 0, 0, 0, 0, 0));
    SettingNext(items, p, a);
    var b := a.(usages := [5]);
    assert a.usages + [5] == [5] && b.collections + [true] == [true];
    LocalNext(items[1..], a, b);
    var c := a.(collections := [true]);
    assert items[1..][1..] == items[2..];
    assert HidLayout.Apply(b, items[2]) == Some(c);
    ItemNext(items[2..], b, c);
    assert items[2..][1..] == items[3..];
  }

  lemma SticksSettings(p: Parser)
    requires p.g == Global(1, 0, 0, 0, 0, 0) && p.usages == []
    ensures ApplyItems(Sticks()[3..], p) == ApplyItems(Sticks()[9..], p.(g := Global(1, 8, 2, 0, 0, 255), usages := [0x30, 0x31]))
  {
    hide ApplyItems;
    var items := Sticks();
    var a := p.(usages := [0x30]);
    assert p.usages + [0x30] == [0x30];
    LocalNext(items[3..], p, a);
    var b := p.(usages := [0x30, 0x31]);
    assert a.usages + [0x31] == [0x30, 0x31];
    assert items[3..][1..] == items[4..];
    LocalNext(items[4..], a, b);
    assert items[4..][1..] == items[5..];
    SettingNext(items[5..], b, b);
    assert items[5..][1..] == items[6..];
    var c := b.(g := Global(1, 0, 0, 0, 0, 255));
    SettingNext(items[6..], b, c);
    assert items[6..][1..] == items[7..];
    var d := b.(g := Global(1, 8, 0, 0, 0, 255));
    SettingNext(items[7..], c, d);
    assert items[7..][1..] == items[8..];
    var e := b.(g := Global(1, 8, 2, 0, 0, 255));
    SettingNext(items[8..], d, e);
    assert items[8..][1..] == items[9..];
  }

  lemma SticksFields(p: Parser)
    requires p.g == Global(1, 8, 2, 0, 0, 255) && p.usages == [0x30, 0x31] && p.collections == [true] && p.offsets[0] == 0
    requires p.layout == Layout([], [], false, {}, false, false)
    ensures InputFits(p) && AddFields(p, p.layout, 2, 0) == Some(Layout(StickFields(), [], false, {0, 1}, false, false))
  {
    var first := Layout(StickFields()[..1], [], false, {0}, false, false);
    var both := Layout(StickFields(), [], false, {0, 1}, false, false);
    assert [] + [StickFields()[0]] == StickFields()[..1] && {} + {0x30 - 0x30} == {0};
    assert AddField(p, p.layout, 2, 0, 0) == Some(first);
    assert StickFields()[..1] + [StickFields()[1]] == StickFields() && {0} + {0x31 - 0x30} == {0, 1};
    assert AddField(p, first, 2, 1, 8) == Some(both);
    assert AddFields(p, both, 2, 2) == Some(both);
    assert AddFields(p, first, 2, 1) == Some(both);
  }

  lemma StickCount()
    ensures |StickFields()| == 2
  {
  }

  lemma HatParses()
    ensures ApplyItems(Hat(), Inside(Global(1, 8, 2, 0, 0, 255), 16, StickFields()))
         == Some(Inside(Global(1, 4, 1, 0, 0, 7), 24, StickFields() + [HatOf()]))
  {
    hide ApplyItems, AddFields, StickFields;
    var items, p := Hat(), Inside(Global(1, 8, 2, 0, 0, 255), 16, StickFields());
    var a := p.(usages := [0x39]);
    assert p.usages + [0x39] == [0x39];
    StickCount();
    LocalNext(items, p, a);
    var b := a.(g := Global(1, 8, 2, 0, 0, 7));
    SettingNext(items[1..], a, b);
    assert items[1..][1..] == items[2..];
    var c := a.(g := Global(1, 4, 2, 0, 0, 7));
    SettingNext(items[2..], b, c);
    assert items[2..][1..] == items[3..];
    var d := a.(g := Global(1, 4, 1, 0, 0, 7));
    SettingNext(items[3..], c, d);
    assert items[3..][1..] == items[4..];
    var e := Inside(d.g, 20, StickFields() + [HatOf()]);
    HatAdded(d, StickFields());
    assert d.offsets[0 := 20] == e.offsets;
    InputNext(items[4..], d, e.layout, e);
    assert items[4..][1..] == items[5..];
    var f := Inside(d.g, 24, StickFields() + [HatOf()]);
    Padding(e);
    assert e.offsets[0 := 24] == f.offsets;
    InputNext(items[5..], e, e.layout, f);
    assert items[5..][1..] == [];
    EndOf(f);
  }

  lemma HatAdded(p: Parser, fields: seq<Field>)
    requires p.g == Global(1, 4, 1, 0, 0, 7) && p.usages == [0x39] && p.collections == [true] && p.offsets[0] == 16 && |fields| == 2
    requires p.layout == Layout(fields, [], false, {0, 1}, false, false)
    ensures InputFits(p) && AddFields(p, p.layout, 0x42, 0) == Some(p.layout.(fields := fields + [HatOf()]))
  {
    var more := p.layout.(fields := fields + [HatOf()]);
    assert AddField(p, p.layout, 0x42, 0, 16) == Some(more);
    assert AddFields(p, more, 0x42, 1) == Some(more);
  }

  lemma Padding(p: Parser)
    requires p.g == Global(1, 4, 1, 0, 0, 7) && p.offsets[0] == 20 && !p.layout.numbered
    ensures InputFits(p) && AddFields(p, p.layout, 3, 0) == Some(p.layout)
  {
    NoControl(p, p.layout, 3, 0, 20);
    assert AddFields(p, p.layout, 3, 1) == Some(p.layout);
  }

  lemma {:induction false} ButtonFields(p: Parser, l: Layout, i: nat, n: nat)
    requires i <= n == p.g.count <= 64 && p.g == Global(9, 1, n, 0, 0, 1) && p.usages == [] && p.usageMin == 1 && p.usageMax == n
    requires p.collections == [true] && p.offsets[0] == 24 && |l.fields| <= 3 + i
    ensures AddFields(p, l, 2, i) == Some(l.(fields := l.fields + seq(n - i, k requires k >= 0 => ButtonField(i + k))))
    decreases n - i
  {
    if i < n {
      var m := l.(fields := l.fields + [ButtonField(i)]);
      assert AddField(p, l, 2, i, 24 + i) == Some(m);
      ButtonFields(p, m, i + 1, n);
      assert m.fields + seq(n - i - 1, k requires k >= 0 => ButtonField(i + 1 + k)) == l.fields + seq(n - i, k requires k >= 0 => ButtonField(i + k));
    } else {
      assert l.fields + seq(0, k requires k >= 0 => ButtonField(i + k)) == l.fields;
    }
  }

  lemma ButtonsParse(n: nat)
    requires 1 <= n <= 64
    ensures var p := Inside(Global(1, 4, 1, 0, 0, 7), 24, StickFields() + [HatOf()]);
      && ApplyItems(Buttons(n), p).Some?
      && var q := ApplyItems(Buttons(n), p).value;
      q.collections == [] && q.stack == [] && q.layout == GamepadLayout(n)
  {
    hide ApplyItems, AddFields, StickFields;
    var items, p := Buttons(n), Inside(Global(1, 4, 1, 0, 0, 7), 24, StickFields() + [HatOf()]);
    var a := p.(g := Global(9, 4, 1, 0, 0, 7));
    SettingNext(items, p, a);
    var b := a.(usageMin := 1);
    LocalNext(items[1..], a, b);
    assert items[1..][1..] == items[2..];
    var c := b.(usageMax := n);
    LocalNext(items[2..], b, c);
    assert items[2..][1..] == items[3..];
    var d := c.(g := Global(9, 4, 1, 0, 0, 1));
    SettingNext(items[3..], c, d);
    assert items[3..][1..] == items[4..];
    var e := c.(g := Global(9, 1, 1, 0, 0, 1));
    SettingNext(items[4..], d, e);
    assert items[4..][1..] == items[5..];
    var f := c.(g := Global(9, 1, n, 0, 0, 1));
    SettingNext(items[5..], e, f);
    assert items[5..][1..] == items[6..];
    StickCount();
    ButtonFields(f, f.layout, 0, n);
    assert seq(n, k requires k >= 0 => ButtonField(0 + k)) == seq(n, i requires i >= 0 => ButtonField(i));
    var offsets: Offsets := f.offsets[0 := 24 + n];
    var g := f.(layout := GamepadLayout(n), offsets := offsets, usages := [], usageMin := 0, usageMax := 0);
    InputNext(items[6..], f, GamepadLayout(n), g);
    assert items[6..][1..] == items[7..];
    var h := g.(collections := []);
    assert HidLayout.Apply(g, items[7]) == Some(h);
    ItemNext(items[7..], g, h);
    assert items[7..][1..] == [];
    EndOf(h);
  }

  lemma GamepadShort(n: nat)
    requires 1 <= n <= 64
    ensures AllShort(Gamepad(n))
  {
    assert Limit(0) == 1 && Limit(1) == 256 && Limit(2) == 65536;
  }

  /** The descriptor of a plain gamepad, as bytes, is accepted, and its layout is the one it describes. */
  lemma GamepadParses(n: nat)
    requires 1 <= n <= 64
    ensures AllShort(Gamepad(n)) && LayoutOf(DescriptorOf(Gamepad(n))) == Some(GamepadLayout(n))
  {
    hide ApplyItems, Parse, StickFields, Sticks, Hat, Buttons, DescriptorOf, Short, Inside;
    GamepadShort(n);
    var items, data := Gamepad(n), DescriptorOf(Gamepad(n));
    ItemsParse([], items, Start());
    assert [] + data == data;
    var p := Inside(Global(1, 8, 2, 0, 0, 255), 16, StickFields());
    var q := Inside(Global(1, 4, 1, 0, 0, 7), 24, StickFields() + [HatOf()]);
    SticksParse();
    HatParses();
    ButtonsParse(n);
    ItemsThen(Sticks(), Hat() + Buttons(n), Start(), p);
    ItemsThen(Hat(), Buttons(n), p, q);
    assert items == Sticks() + (Hat() + Buttons(n));
  }

  /** Main result: from the descriptor's bytes to the pad. Whatever a report of that gamepad says and whatever the pad held, the
      left stick is its first two bytes, the directions follow the hat in the third, and button k follows bit k of the rest. */
  lemma GamepadReads(n: nat, data: seq<Byte>, pad: Pad)
    requires 1 <= n <= 64 && 8 * |data| >= 24 + n
    ensures AllShort(Gamepad(n)) && LayoutOf(DescriptorOf(Gamepad(n))) == Some(GamepadLayout(n)) && LayoutOk(GamepadLayout(n))
    ensures var (found, p) := Input(GamepadLayout(n), data, pad);
      && found && p.lx == data[0] && p.ly == data[1] && p.rx == pad.rx && p.ry == pad.ry
      && (forall button :: Direction(button) ==> (button in p.buttons <==> data[2] % 16 < 8 && Towards(data[2] % 16, 8, button)))
      && (forall k :: 0 <= k < n && k < BUTTONS ==> (CANONICAL[k] in p.buttons <==> BitAt(data, 24 + k)))
      && p.l2 == (if L2_BUTTON in p.buttons then 255 else 0) && p.r2 == (if R2_BUTTON in p.buttons then 255 else 0)
  {
    hide LayoutOf, DescriptorOf, LayoutOk, Decoded, Towards, BitAt, Direction, Decodable;
    GamepadParses(n);
    AcceptedLayoutOk(DescriptorOf(Gamepad(n)));
    var l := GamepadLayout(n);
    GamepadWithin(n, data);
    GamepadSticks(n, data, pad);
    forall button | Direction(button)
      ensures button in Decoded(l, 0, data, pad).buttons <==> data[2] % 16 < 8 && Towards(data[2] % 16, 8, button)
    {
      GamepadHat(n, data, pad, button);
    }
    forall k | 0 <= k < n && k < BUTTONS ensures CANONICAL[k] in Decoded(l, 0, data, pad).buttons <==> BitAt(data, 24 + k) {
      GamepadButton(n, data, pad, k);
    }
    DigitalMeaning(l, 0, data, pad);
  }

  lemma FieldAt(n: nat, k: nat)
    requires k < 3 + n
    ensures var l := GamepadLayout(n);
      |l.fields| == 3 + n && l.fields[k] == if k < 2 then StickFields()[k] else if k == 2 then HatOf() else ButtonField(k - 3)
  {
  }

  lemma GamepadWithin(n: nat, data: seq<Byte>)
    requires 1 <= n <= 64 && 8 * |data| >= 24 + n
    ensures Decodable(GamepadLayout(n).fields, 0, data) && Addressed(GamepadLayout(n).fields, 0)
  {
    hide GamepadLayout;
    FieldAt(n, 0);
    forall k | 0 <= k < 3 + n ensures Sized(GamepadLayout(n).fields[k]) && Within(GamepadLayout(n).fields[k], data) { FieldAt(n, k); }
  }

  /** The first two fields move the left stick, and none moves the right one. */
  lemma StickTargets(n: nat, k: nat)
    requires 1 <= n <= 64 && k < 3 + n
    ensures var l := GamepadLayout(n);
      && |l.fields| == 3 + n && l.fields[k].report == 0
      && (Lx in Targets(l, l.fields[k]) <==> k == 0) && (Ly in Targets(l, l.fields[k]) <==> k == 1)
      && Rx !in Targets(l, l.fields[k]) && Ry !in Targets(l, l.fields[k])
  {
    hide GamepadLayout;
    FieldAt(n, k);
  }

  lemma GamepadStick(n: nat, data: seq<Byte>, pad: Pad, k: nat)
    requires 1 <= n <= 64 && 8 * |data| >= 24 + n && k < 2
    ensures Decodable(GamepadLayout(n).fields, 0, data)
    ensures Get(Decoded(GamepadLayout(n), 0, data, pad), if k == 0 then Lx else Ly) == data[k]
  {
    hide GamepadLayout, Decoded, Raw, Targets, Get, Scaled;
    var l := GamepadLayout(n);
    GamepadWithin(n, data);
    forall j | 0 <= j < 3 + n ensures |l.fields| == 3 + n && l.fields[j].report == 0
      ensures (Lx in Targets(l, l.fields[j]) <==> j == 0) && (Ly in Targets(l, l.fields[j]) <==> j == 1)
    {
      StickTargets(n, j);
    }
    FieldAt(n, k);
    StickMeaning(l, 0, data, pad, k, if k == 0 then Lx else Ly);
    RawByte(data, k, 8);
    WholeScale(l.fields[k], data[k]);
    assert BitString.Pow2(8) == 256;
  }

  lemma GamepadSticks(n: nat, data: seq<Byte>, pad: Pad)
    requires 1 <= n <= 64 && 8 * |data| >= 24 + n
    ensures Decodable(GamepadLayout(n).fields, 0, data)
    ensures var p := Decoded(GamepadLayout(n), 0, data, pad); p.lx == data[0] && p.ly == data[1] && p.rx == pad.rx && p.ry == pad.ry
  {
    hide GamepadLayout, Decoded, Targets, Sized, Within;
    var l := GamepadLayout(n);
    GamepadWithin(n, data);
    GamepadStick(n, data, pad, 0);
    GamepadStick(n, data, pad, 1);
    forall k | 0 <= k < |l.fields| ensures Rx !in Targets(l, l.fields[k]) && Ry !in Targets(l, l.fields[k]) {
      FieldAt(n, 0);
      StickTargets(n, k);
    }
    Untouched(l, 0, data, pad, Rx);
    Untouched(l, 0, data, pad, Ry);
  }

  /** A part no field of the report can move stays as it was. */
  lemma Untouched(l: Layout, report: nat, data: seq<Byte>, pad: Pad, part: Part)
    requires Decodable(l.fields, report, data) && (part == Rx || part == Ry)
    requires forall k :: 0 <= k < |l.fields| && l.fields[k].report == report ==> part !in Targets(l, l.fields[k])
    ensures Get(Decoded(l, report, data, pad), part) == Get(pad, part)
  {
    hide ApplyAll, ArrayMask, DirectionsOf, Targets;
    AllFrame(l, DirectionsOf(l.fields, report), l.fields, report, data, Cleared(l, report, pad), part);
  }

  lemma {:induction false} AllFrame(l: Layout, d: Directions, fields: seq<Field>, report: nat, data: seq<Byte>, pad: Pad, part: Part)
    requires Decodable(fields, report, data)
    requires forall k :: 0 <= k < |fields| && fields[k].report == report ==> part !in Targets(l, fields[k])
    ensures Get(ApplyAll(l, d, fields, report, data, pad), part) == Get(pad, part)
    decreases |fields|
  {
    hide ApplyField, Targets, Get, Sized, Within;
    if fields != [] {
      var n := |fields| - 1;
      AllFrame(l, d, fields[..n], report, data, pad, part);
      if fields[n].report == report { FieldFrame(l, d, fields[n], data, ApplyAll(l, d, fields[..n], report, data, pad), part); }
    }
  }

  /** A byte over its whole range is scaled to itself. */
  lemma WholeScale(f: Field, v: Byte)
    requires f.minimum == 0 && f.maximum == 255
    ensures Scaled(f, v) == v
  {
    DivExact(v, 255, 127, v * 255 + 127);
  }

  lemma GamepadHat(n: nat, data: seq<Byte>, pad: Pad, button: nat)
    requires 1 <= n <= 64 && 8 * |data| >= 24 + n && Direction(button)
    ensures Decodable(GamepadLayout(n).fields, 0, data)
    ensures button in Decoded(GamepadLayout(n), 0, data, pad).buttons <==> data[2] % 16 < 8 && Towards(data[2] % 16, 8, button)
  {
    hide GamepadLayout, Decoded, Raw, Direction, Towards, Sized, Within;
    var l := GamepadLayout(n);
    GamepadWithin(n, data);
    forall k | 0 <= k < 3 + n ensures |l.fields| == 3 + n && l.fields[k].report == 0 && (IsHat(l.fields[k]) <==> k == 2) && !IsDpad(l.fields[k]) {
      FieldAt(n, k);
    }
    FieldAt(n, 2);
    assert HasHat(l.fields, 0) && !HasPad(l.fields, 0, 0x90);
    HatMeaning(l, 0, data, pad, button);
    RawByte(data, 2, 4);
    assert BitString.Pow2(4) == 16;
    assert HatPoints(l.fields[2], data, button) <==> data[2] % 16 < 8 && Towards(data[2] % 16, 8, button);
  }

  /** Only one field moves a button of the page, and it does so by its own bit. */
  lemma ButtonTargets(n: nat, j: nat, k: nat)
    requires 1 <= n <= 64 && j < 3 + n && k < n && k < BUTTONS
    ensures var l := GamepadLayout(n);
      && |l.fields| == 3 + n && l.fields[j].report == 0
      && (Button(CANONICAL[k]) in Targets(l, l.fields[j]) ==> j == 3 + k)
  {
    hide GamepadLayout;
    FieldAt(n, j);
    ButtonNames();
  }

  lemma GamepadButton(n: nat, data: seq<Byte>, pad: Pad, k: nat)
    requires 1 <= n <= 64 && 8 * |data| >= 24 + n && k < n && k < BUTTONS
    ensures Decodable(GamepadLayout(n).fields, 0, data)
    ensures CANONICAL[k] in Decoded(GamepadLayout(n), 0, data, pad).buttons <==> BitAt(data, 24 + k)
  {
    hide GamepadLayout, Decoded, BitAt, Targets;
    var l := GamepadLayout(n);
    GamepadWithin(n, data);
    forall j | 0 <= j < 3 + n ensures |l.fields| == 3 + n && l.fields[j].report == 0
      ensures Button(CANONICAL[k]) in Targets(l, l.fields[j]) ==> j == 3 + k
    {
      ButtonTargets(n, j, k);
    }
    FieldAt(n, 3 + k);
    ButtonMeaning(l, 0, data, pad, 3 + k);
    assert BitString.Pow2(0) == 1;
    assert Raw(data, 24 + k, 0) == 0;
  }

  // ---- aligned values ------------------------------------------------------------------------

  lemma Halves(x: nat, p: nat)
    requires p > 0
    ensures x % (2 * p) == x % p + x / p % 2 * p
  {
    var q, r := x / p, x % p;
    var h, b := q / 2, q % 2;
    assert x == (2 * h + b) * p + r;
    assert (2 * h + b) * p == h * (2 * p) + b * p;
    assert b * p + r < 2 * p;
    DivExact(h, 2 * p, b * p + r, x);
  }

  lemma BitOfByte(data: seq<Byte>, i: nat, j: nat)
    requires i < |data| && j < 8
    ensures BitAt(data, 8 * i + j) <==> data[i] / BitString.Pow2(j) % 2 == 1
  {
    hide BitString.Pow2;
    assert (8 * i + j) / 8 == i && (8 * i + j) % 8 == j;
  }

  /** The low n bits of a byte. */
  lemma {:induction false} RawByte(data: seq<Byte>, i: nat, n: nat)
    requires i < |data| && n <= 8
    ensures Raw(data, 8 * i, n) == data[i] % BitString.Pow2(n)
  {
    hide BitAt;
    if n > 0 {
      RawByte(data, i, n - 1);
      BitOfByte(data, i, n - 1);
      Halves(data[i], BitString.Pow2(n - 1));
    }
  }

  lemma {:induction false} RawSplit(data: seq<Byte>, offset: nat, a: nat, b: nat)
    requires offset + a + b <= 8 * |data|
    ensures Raw(data, offset, a + b) == Raw(data, offset, a) + BitString.Pow2(a) * Raw(data, offset + a, b)
    decreases b
  {
    hide Raw, BitAt, BitString.Pow2;
    if b == 0 {
      RawNone(data, offset + a);
    } else {
      RawSplit(data, offset, a, b - 1);
      Pow2Sum(a, b - 1);
      RawStep(data, offset, a + b);
      RawStep(data, offset + a, b);
      Distribute(BitString.Pow2(a), Raw(data, offset + a, b - 1), BitString.Pow2(b - 1));
    }
  }

  lemma RawNone(data: seq<Byte>, offset: nat)
    requires offset <= 8 * |data|
    ensures Raw(data, offset, 0) == 0
  {
  }

  lemma RawStep(data: seq<Byte>, offset: nat, n: nat)
    requires 0 < n && offset + n <= 8 * |data|
    ensures Raw(data, offset, n)
         == Raw(data, offset, n - 1) + if BitAt(data, offset + n - 1) then BitString.Pow2(n - 1) else 0
  {
  }

  lemma Distribute(p: nat, r: nat, s: nat)
    ensures p * (r + s) == p * r + p * s
  {
  }

  lemma {:induction false} Pow2Sum(a: nat, b: nat)
    ensures BitString.Pow2(a + b) == BitString.Pow2(a) * BitString.Pow2(b)
    decreases b
  {
    if b > 0 { Pow2Sum(a, b - 1); }
  }

  /** A field of whole bytes is a little-endian number. */
  lemma {:induction false} RawLittleEndian(data: seq<Byte>, i: nat, n: nat)
    requires i + n <= |data|
    ensures Raw(data, 8 * i, 8 * n) == LittleEndian(data[i..i + n])
    decreases n
  {
    hide Raw, BitString.Pow2;
    if n == 0 {
      RawNone(data, 8 * i);
    } else {
      assert data[i..i + n][1..] == data[i + 1..i + n];
      RawLittleEndian(data, i + 1, n - 1);
      RawSplit(data, 8 * i, 8, 8 * (n - 1));
      RawByte(data, i, 8);
      Pow2Of8();
    }
  }

  lemma Pow2Of8()
    ensures BitString.Pow2(8) == 256
  {
    assert BitString.Pow2(4) == 16;
  }
}
