/** Rules written to `controllers.ini` read back unchanged, and what is read can always be written. */
module ControllersFile {
  import opened Bytes
  import opened Ini
  import opened Controllers
  import opened Wrappers

  // ---- numbers -------------------------------------------------------------------------------

  lemma DigitReads(d: nat)
    requires d < 16
    ensures DigitValue(Digit(d)) == d && !IsSpace(Digit(d)) && Digit(d) !in {'-', '+', 'x', 'X', '\0', '\n', '\r', '=', '\"', '\''}
    ensures d != 0 ==> Digit(d) != '0'
  {
  }

  lemma {:induction false} HexReads(v: nat, n: nat)
    ensures |Hex(v, n)| == n && forall i :: 0 <= i < n ==> exists d :: 0 <= d < 16 && Hex(v, n)[i] == Digit(d)
  {
    if n > 0 {
      HexReads(v / 16, n - 1);
      assert Hex(v, n)[n - 1] == Digit(v % 16);
    }
  }

  predicate Fits(v: nat, n: nat) { if n == 0 then v == 0 else Fits(v / 16, n - 1) }

  lemma FitsWidth(v: nat)
    ensures v < 0x100 ==> Fits(v, 2)
    ensures v < 0x1_0000 ==> Fits(v, 4)
  {
    var a := v / 16;
    var b := a / 16;
    var c := b / 16;
    var d := c / 16;
    if v < 0x100 {
      assert b == 0;
      assert Fits(b, 0);
      assert Fits(a, 1);
    }
    if v < 0x1_0000 {
      assert a < 0x1000 && b < 0x100 && c < 0x10 && d == 0;
      assert Fits(d, 0);
      assert Fits(c, 1);
      assert Fits(b, 2);
      assert Fits(a, 3);
    }
  }

  lemma {:induction false} NumberHex(v: nat, n: nat)
    requires Fits(v, n)
    ensures Number(Hex(v, n), 16) == Some(v)
  {
    if n > 0 {
      NumberHex(v / 16, n - 1);
      DigitReads(v % 16);
      var s := Hex(v, n);
      assert s[..|s| - 1] == Hex(v / 16, n - 1) && s[|s| - 1] == Digit(v % 16);
    }
  }

  lemma {:induction false} NumberDecimal(v: nat)
    ensures Number(Decimal(v), 10) == Some(v) && Decimal(v) != ""
    ensures forall i :: 0 <= i < |Decimal(v)| ==> exists d :: 0 <= d < 10 && Decimal(v)[i] == Digit(d)
    ensures v > 0 ==> Decimal(v)[0] != '0'
  {
    var s := Decimal(v);
    if v < 10 {
      DigitReads(v);
      assert s[..|s| - 1] == "" && s[0] == Digit(v);
    } else {
      NumberDecimal(v / 10);
      DigitReads(v % 10);
      assert s[..|s| - 1] == Decimal(v / 10) && s[|s| - 1] == Digit(v % 10);
    }
  }

  lemma ParseHex(v: nat, n: nat, lo: nat, hi: nat)
    requires n > 0 && Fits(v, n) && lo <= v <= hi < ULONG
    ensures ParseUnsigned("0x" + Hex(v, n), lo, hi) == Some(v)
  {
    HexReads(v, n);
    NumberHex(v, n);
    var s := "0x" + Hex(v, n);
    assert s[0] == '0' && s[1] == 'x' && s[2] == Hex(v, n)[0] && s[2..] == Hex(v, n);
    var d :| 0 <= d < 16 && Hex(v, n)[0] == Digit(d);
    DigitReads(d);
  }

  lemma ParseDecimal(v: nat, hi: nat)
    requires v <= hi < ULONG
    ensures ParseUnsigned(Decimal(v), 0, hi) == Some(v)
  {
    NumberDecimal(v);
    var s := Decimal(v);
    var d :| 0 <= d < 10 && s[0] == Digit(d);
    DigitReads(d);
    if v == 0 {
      assert s == "0" && s[..0] == "" && DigitValue('0') == 0;
      assert Number(s, 8) == Some(0);
    }
  }

  /** Digits are the usual sixteen, in lower case when written and in either case when read; a letter is no decimal digit. */
  lemma DigitSpelling(d: nat)
    requires d < 16
    ensures Digit(d) == "0123456789abcdef"[d] && DigitValue("0123456789abcdef"[d]) == DigitValue("0123456789ABCDEF"[d]) == d
    ensures (Number(["0123456789abcdef"[d]], 10) == Some(d)) <==> d < 10
  {
    var s := ["0123456789abcdef"[d]];
    assert s[..0] == "";
  }

  predicate Decimals(s: string) { s != "" && forall i :: 0 <= i < |s| ==> '0' <= s[i] <= '9' }

  lemma DecimalsPlain(s: string)
    requires Decimals(s)
    ensures SkipSpace(s) == s && SkipSpace(" " + s) == s && DigitValue(s[0]) < 10
    ensures s[0] !in {'-', '+', 'x', 'X'} && (|s| >= 2 ==> s[1] !in {'x', 'X'})
  {
    assert (" " + s)[1..] == s && '0' <= s[0] <= '9' && (|s| >= 2 ==> '0' <= s[1] <= '9');
  }

  lemma PlainForms(s: string, maximum: nat)
    requires Decimals(s)
    ensures ParseUnsigned(" " + s, 0, maximum) == ParseUnsigned("+" + s, 0, maximum) == ParseUnsigned(s, 0, maximum)
    ensures s[0] != '0' ==> Accepts(ParseUnsigned(s, 0, maximum), Number(s, 10), maximum)
  {
    hide Number, DigitValue, SkipSpace;
    DecimalsPlain(s);
    assert ("+" + s)[1..] == s;
    assert SkipSpace("+" + s) == "+" + s by { Unskipped("+" + s); }
  }

  lemma Unskipped(s: string)
    requires s != "" && !IsSpace(s[0])
    ensures SkipSpace(s) == s
  {
  }

  lemma MinusForm(s: string, v: nat, maximum: nat)
    requires Decimals(s) && s[0] != '0' && Number(s, 10) == Some(v) && 0 < v < ULONG
    ensures ParseUnsigned("-" + s, 0, maximum) == if ULONG - v <= maximum then Some(ULONG - v) else None
  {
    hide Number, DigitValue, SkipSpace;
    DecimalsPlain(s);
    Unskipped("-" + s);
    assert ("-" + s)[1..] == s;
  }

  lemma OctalForm(s: string, maximum: nat)
    requires Decimals(s)
    ensures Accepts(ParseUnsigned("0" + s, 0, maximum), Number("0" + s, 8), maximum)
  {
    hide Number, DigitValue, SkipSpace;
    DecimalsPlain(s);
    Unskipped("0" + s);
  }

  lemma HexForm(s: string, x: char, maximum: nat)
    requires Decimals(s) && x in {'x', 'X'}
    ensures Accepts(ParseUnsigned(['0', x] + s, 0, maximum), Number(s, 16), maximum)
  {
    hide Number, DigitValue, SkipSpace;
    DecimalsPlain(s);
    Unskipped(['0', x] + s);
    assert (['0', x] + s)[2..] == s;
  }

  /** The number is taken if there is one and it is neither too large for 64 bits nor above the maximum. */
  predicate Accepts(r: Option<nat>, number: Option<nat>, maximum: nat) {
    r == if number.Some? && number.value < ULONG && number.value <= maximum then number else None
  }

  /** How the several ways to write a number are read: leading blanks and a plus sign do not matter, a minus sign wraps round at
      64 bits, a leading zero makes it octal, and "0x" or "0X" hexadecimal. */
  lemma NumberForms(s: string, v: nat, maximum: nat)
    requires Decimals(s)
    ensures ParseUnsigned(" " + s, 0, maximum) == ParseUnsigned("+" + s, 0, maximum) == ParseUnsigned(s, 0, maximum)
    ensures s[0] != '0' ==> Accepts(ParseUnsigned(s, 0, maximum), Number(s, 10), maximum)
    ensures s[0] != '0' && Number(s, 10) == Some(v) && 0 < v < ULONG ==>
      ParseUnsigned("-" + s, 0, maximum) == (if ULONG - v <= maximum then Some(ULONG - v) else None)
    ensures Accepts(ParseUnsigned("0" + s, 0, maximum), Number("0" + s, 8), maximum)
    ensures Accepts(ParseUnsigned("0x" + s, 0, maximum), Number(s, 16), maximum)
    ensures Accepts(ParseUnsigned("0X" + s, 0, maximum), Number(s, 16), maximum)
  {
    hide Number, ParseUnsigned;
    PlainForms(s, maximum);
    if s[0] != '0' && Number(s, 10) == Some(v) && 0 < v < ULONG { MinusForm(s, v, maximum); }
    OctalForm(s, maximum);
    HexForm(s, 'x', maximum);
    HexForm(s, 'X', maximum);
    assert ['0', 'x'] + s == "0x" + s && ['0', 'X'] + s == "0X" + s;
  }

  // ---- one key -------------------------------------------------------------------------------

  lemma KeyReads(k: Key)
    ensures KeyOf(KeyText(k)) == Some(k)
  {
    match k {
      case Pid => Differ("pid", "vid", 0);
      case OutputType => Differ("output_type", "in_endpoint", 0);
      case InstanceId =>
        Differ("instance_id", "in_endpoint", 2);
        Differ("instance_id", "output_type", 0);
      case _ =>
    }
  }

  lemma Differ(a: string, b: string, i: nat)
    requires i < |a| && i < |b| && Lower(a[i]) != Lower(b[i])
    ensures !SameFold(a, b)
  {
  }

  predicate KeyLetter(c: char) { 'a' <= c <= 'z' || c == '_' }

  lemma KeyLetters(k: Key)
    ensures 0 < |KeyText(k)| <= 12 && KeyText(k)[0] != 's' && KeyText(k)[0] != '_'
    ensures forall i :: 0 <= i < |KeyText(k)| ==> KeyLetter(KeyText(k)[i])
  {
  }

  lemma KeyPlain(k: Key)
    ensures KeyText(k) != "" && |KeyText(k)| <= 12 && Tight(KeyText(k)) && KeyText(k)[0] !in {'#', ';', '['} && Clean(KeyText(k))
    ensures forall i :: 0 <= i < |KeyText(k)| ==> KeyText(k)[i] != '='
    ensures !SameFold(KeyText(k), "schema")
  {
    hide KeyText;
    KeyLetters(k);
    assert Lower(KeyText(k)[0]) != Lower('s');
  }

  /** Copies one field. */
  function Copy(r: Rule, k: Key, to: Rule): Rule {
    match k
    case Name => to.(name := r.name)
    case Enabled => to.(enabled := r.enabled)
    case Ignored => to.(ignored := r.ignored)
    case Vid => to.(vid := r.vid)
    case Pid => to.(pid := r.pid)
    case Protocol => to.(protocol := r.protocol)
    case Interface => to.(interfaceNumber := r.interfaceNumber)
    case InEndpoint => to.(inEndpoint := r.inEndpoint)
    case OutEndpoint => to.(outEndpoint := r.outEndpoint)
    case OutputType => to.(outputType := r.outputType)
    case InstanceId => to.(instanceId := r.instanceId)
    case ProfileId => to.(profileId := r.profileId)
  }

  /** A value as written: no line breaks, nothing to trim, and unquoting leaves what the key's parser expects. */
  ghost predicate Plain(v: string) {
    Tight(v) && Clean(v) && |v| < 100
  }

  lemma PlainHex(v: nat, n: nat)
    requires 0 < n <= 4
    ensures Plain("0x" + Hex(v, n)) && Unquote("0x" + Hex(v, n)) == "0x" + Hex(v, n)
  {
    HexReads(v, n);
    var s := "0x" + Hex(v, n);
    forall i | 0 <= i < |s|
      ensures !IsSpace(s[i]) && s[i] !in {'\0', '\n', '\r'}
    {
      if i >= 2 {
        assert s[i] == Hex(v, n)[i - 2];
        var d :| 0 <= d < 16 && s[i] == Digit(d);
        DigitReads(d);
      }
    }
  }

  lemma PlainDecimal(v: nat)
    requires v < 1000
    ensures Plain(Decimal(v)) && Unquote(Decimal(v)) == Decimal(v) && !SameFold(Decimal(v), "auto")
  {
    NumberDecimal(v);
    var s := Decimal(v);
    assert v / 10 / 10 < 10 && |Decimal(v / 10 / 10)| == 1;
    assert |Decimal(v / 10)| <= 2;
    assert |s| <= 3;
    forall i | 0 <= i < |s|
      ensures !IsSpace(s[i]) && s[i] !in {'\0', '\n', '\r', '\"', '\''}
    {
      var d :| 0 <= d < 10 && s[i] == Digit(d);
      DigitReads(d);
    }
  }

  lemma PlainId(s: string)
    requires forall i :: 0 <= i < |s| ==> IdChar(s[i])
    requires |s| < ID_MAX
    ensures Plain(s) && Unquote(s) == s && forall i :: 0 <= i < |s| ==> s[i] != ']'
  {
  }

  lemma PlainInstance(s: string)
    requires ValidInstance(s)
    ensures Plain(s) && Unquote(s) == s
  {
    assert s[0] == s[..11][0] && s[10] == s[..11][10];
    forall i | 0 <= i < 23
      ensures !IsSpace(s[i]) && s[i] !in {'\0', '\n', '\r'}
    {
      if i < 11 { assert s[i] == s[..11][i]; }
    }
  }

  lemma QuotedName(name: string)
    requires ValidName(name)
    ensures Plain("\"" + name + "\"") && Unquote("\"" + name + "\"") == name
  {
    var v := "\"" + name + "\"";
    assert v[|v| - 1] == '\"' && v[1..|v| - 1] == name;
  }

  lemma NotAuto(v: nat, n: nat)
    ensures !SameFold("0x" + Hex(v, n), "auto") && "0x" + Hex(v, n) != "0"
  {
    assert ("0x" + Hex(v, n))[0] == '0' && ("0x" + Hex(v, n))[1] == 'x';
  }

  /** Every field of a valid rule reads back as written. */
  lemma FieldReads(r: Rule, k: Key, to: Rule)
    requires Valid(r)
    ensures Plain(ValueText(r, k)) && Assign(to, k, Unquote(ValueText(r, k))) == Some(Copy(r, k, to))
  {
    hide ParseUnsigned, ParseEndpoint, EndpointText, Hex, Decimal, ValidInstance, ValidId, ValidIn, ValidOut;
    match k {
      case Name => QuotedName(r.name);
      case Vid =>
        FitsWidth(r.vid);
        PlainHex(r.vid, 4);
        ParseHex(r.vid, 4, 1, 0xffff);
      case Pid =>
        FitsWidth(r.pid);
        PlainHex(r.pid, 4);
        ParseHex(r.pid, 4, 0, 0xffff);
      case Interface =>
        if r.interfaceNumber >= 0 {
          PlainDecimal(r.interfaceNumber);
          ParseDecimal(r.interfaceNumber, 255);
        }
      case InEndpoint => EndpointReads(r.inEndpoint, true);
      case OutEndpoint => EndpointReads(r.outEndpoint, false);
      case InstanceId => if r.instanceId != "" { PlainInstance(r.instanceId); }
      case ProfileId => if r.profileId != "" { PlainProfile(r); }
      case Enabled => BoolReads(r.enabled);
      case Ignored => BoolReads(r.ignored);
      case Protocol => PlainProtocol(r.protocol);
      case OutputType => OutputReads(r.outputType);
    }
  }

  lemma BoolReads(b: int)
    requires b == 0 || b == 1
    ensures Plain(BoolText(b)) && Unquote(BoolText(b)) == BoolText(b) && ParseBool(BoolText(b)) == Some(b)
  {
    Differ("false", "true", 0);
  }

  lemma OutputReads(t: int)
    requires OutputName(t).Some?
    ensures var name := OutputName(t).value; Plain(name) && Unquote(name) == name && ParseOutput(name) == Some(t)
  {
  }

  lemma PlainProtocol(s: string)
    requires ValidProtocol(s)
    ensures Plain(s) && Unquote(s) == s
  {
  }

  lemma PlainProfile(r: Rule)
    requires Valid(r) && r.profileId != ""
    ensures Plain(r.profileId) && Unquote(r.profileId) == r.profileId && ValidId(r.profileId)
  {
    PlainId(r.profileId);
  }

  lemma EndpointReads(e: Byte, input: bool)
    requires if input then ValidIn(e) else ValidOut(e)
    ensures Plain(EndpointText(e)) && Unquote(EndpointText(e)) == EndpointText(e)
    ensures ParseEndpoint(EndpointText(e), input) == Some(e)
  {
    if e != 0 {
      FitsWidth(e);
      PlainHex(e, 2);
      ParseHex(e, 2, 1, 255);
      NotAuto(e, 2);
    }
  }

  // ---- one rule ------------------------------------------------------------------------------

  lemma LineOf(r: Rule, schema: nat, i: nat)
    requires i < |Keys(schema)|
    ensures |RuleLines(r, schema)| == 2 + |Keys(schema)|
    ensures RuleLines(r, schema)[2 + i] == KeyText(Keys(schema)[i]) + "=" + ValueText(r, Keys(schema)[i])
  {
    hide KeyText, ValueText;
  }

  lemma KeyOrder(schema: nat)
    ensures |Keys(schema)| == if schema == 2 then 12 else 10
    ensures Keys(schema)[..10] == [Name, Enabled, Ignored, Vid, Pid, Protocol, Interface, InEndpoint, OutEndpoint, OutputType]
    ensures Keys(schema)[10..] == if schema == 2 then [InstanceId, ProfileId] else []
  {
  }

  /** The lines of a rule below its heading. */
  function Shown(r: Rule, i: nat): string
    requires i < 12 && Valid(r)
  {
    match i
    case 0 => "name" + "=" + ("\"" + r.name + "\"")
    case 1 => "enabled" + "=" + (if r.enabled == 1 then "true" else "false")
    case 2 => "ignore" + "=" + (if r.ignored == 1 then "true" else "false")
    case 3 => "vid" + "=" + ("0x" + Hex(r.vid, 4))
    case 4 => "pid" + "=" + ("0x" + Hex(r.pid, 4))
    case 5 => "protocol" + "=" + r.protocol
    case 6 => "interface" + "=" + (if r.interfaceNumber == -1 then "auto" else Decimal(r.interfaceNumber))
    case 7 => "in_endpoint" + "=" + (if r.inEndpoint == 0 then "auto" else "0x" + Hex(r.inEndpoint, 2))
    case 8 => "out_endpoint" + "=" + (if r.outEndpoint == 0 then "auto" else "0x" + Hex(r.outEndpoint, 2))
    case 9 => "output_type" + "=" + ["ds5", "ds4", "psvr2_left", "psvr2_right"][r.outputType]
    case 10 => "instance_id" + "=" + r.instanceId
    case _ => "profile_id" + "=" + r.profileId
  }

  /** A rule as the file shows it: an empty line, its heading, ten lines, and in the second schema two more. */
  lemma RuleSpelling(r: Rule, schema: nat, i: nat)
    requires Valid(r)
    ensures |RuleLines(r, schema)| == if schema == 2 then 14 else 12
    ensures RuleLines(r, schema)[..2] == ["", "[" + ("controller:" + r.id) + "]"]
    ensures i < (if schema == 2 then 12 else 10) ==> RuleLines(r, schema)[2 + i] == Shown(r, i)
  {
    hide Valid, Hex, Decimal, RuleLines, Keys, Shown, KeyText, ValueText;
    Heading(r, schema);
    KeyOrder(schema);
    LineOf(r, schema, 0);
    if i < if schema == 2 then 12 else 10 {
      LineOf(r, schema, i);
      KeyShown(r, schema, i);
    }
  }

  lemma KeyShown(r: Rule, schema: nat, i: nat)
    requires Valid(r) && i < |Keys(schema)| <= 12
    ensures KeyText(Keys(schema)[i]) + "=" + ValueText(r, Keys(schema)[i]) == Shown(r, i)
  {
    hide ValidId, ValidInstance, ValidName, ValidIn, ValidOut, ValidProtocol, Hex, Decimal, Keys;
    KeyOrder(schema);
    assert if i < 10 then Keys(schema)[i] == Keys(schema)[..10][i] else Keys(schema)[i] == Keys(schema)[10..][i - 10];
  }

  lemma Heading(r: Rule, schema: nat)
    ensures |RuleLines(r, schema)| >= 2 && RuleLines(r, schema)[0] == "" && RuleLines(r, schema)[1] == "[" + ("controller:" + r.id) + "]"
  {
  }

  predicate Absent(drafts: seq<Draft>, id: string) {
    forall i :: 0 <= i < |drafts| ==> drafts[i].rule.id != id
  }

  /** The file so far, then the rule being read. */
  function Reading(base: Parsed, d: Draft): Parsed { base.(drafts := base.drafts + [d]) }

  lemma {:induction false} IndexLast(drafts: seq<Draft>, d: Draft)
    requires Absent(drafts, d.rule.id)
    ensures IndexOf(drafts + [d], d.rule.id) == |drafts|
  {
    var i := IndexOf(drafts + [d], d.rule.id);
    assert (drafts + [d])[|drafts|] == d;
    assert forall j :: 0 <= j < |drafts| ==> (drafts + [d])[j] == drafts[j];
  }

  lemma IndexAbsent(drafts: seq<Draft>, id: string)
    requires Absent(drafts, id)
    ensures IndexOf(drafts, id) == |drafts|
  {
  }

  lemma SectionReads(id: string)
    requires ValidId(id) && |id| < ID_MAX
    ensures HasPrefixFold("controller:" + id, "controller:") && ("controller:" + id)[11..] == id
    ensures "controller:" + id != "" && !SameFold("controller:" + id, "ghostcontrol")
    ensures Interpret("[" + ("controller:" + id) + "]") == Ini.Section("controller:" + id)
    ensures Clean("[" + ("controller:" + id) + "]")
  {
    hide Interpret, Find, Trim;
    var s := "controller:" + id;
    assert s[..11] == "controller:";
    Differ(s, "ghostcontrol", 0);
    PlainId(id);
    forall i | 0 <= i < |s|
      ensures s[i] != ']' && s[i] !in {'\0', '\n', '\r'}
    {
      if i >= 11 { assert s[i] == id[i - 11]; }
    }
    InterpretSection(s);
  }

  /** A key of the last rule. */
  lemma EnterLast(base: Parsed, d: Draft, k: Key, value: string, rule: Rule)
    requires Absent(base.drafts, d.rule.id) && ValidId(d.rule.id) && |d.rule.id| < ID_MAX
    requires k !in d.seen && Assign(d.rule, k, value) == Some(rule)
    ensures Enter(Reading(base, d), "controller:" + d.rule.id, KeyText(k), value)
         == Some(Reading(base, Draft(rule, d.seen + {k})))
  {
    hide Assign, KeyOf, KeyText, ValidId, SameFold, HasPrefixFold, ParseUnsigned, EnterKey, IndexOf;
    SectionReads(d.rule.id);
    IndexLast(base.drafts, d);
    KeyPlain(k);
    EnterLastKey(base, d, k, value, rule);
  }

  lemma EnterLastKey(base: Parsed, d: Draft, k: Key, value: string, rule: Rule)
    requires k !in d.seen && Assign(d.rule, k, value) == Some(rule)
    ensures var p := Reading(base, d);
      EnterKey(p, p.drafts, |base.drafts|, KeyText(k), value) == Some(Reading(base, Draft(rule, d.seen + {k})))
  {
    hide Assign, KeyOf, KeyText;
    KeyReads(k);
    assert (base.drafts + [d])[|base.drafts| := Draft(rule, d.seen + {k})] == base.drafts + [Draft(rule, d.seen + {k})];
  }

  /** The first key of a new rule. */
  lemma EnterNew(base: Parsed, id: string, k: Key, value: string)
    requires Absent(base.drafts, id) && ValidId(id) && |id| < ID_MAX && |base.drafts| < MAX_RULES
    ensures Enter(base, "controller:" + id, KeyText(k), value)
         == Enter(Reading(base, Draft(NewRule(id), {})), "controller:" + id, KeyText(k), value)
  {
    hide Assign, KeyOf, KeyText, ValidId, SameFold, HasPrefixFold, ParseUnsigned;
    SectionReads(id);
    IndexLast(base.drafts, Draft(NewRule(id), {}));
    IndexAbsent(base.drafts, id);
    KeyPlain(k);
  }

  function CopyAll(r: Rule, keys: seq<Key>, to: Rule): Rule {
    if keys == [] then to else CopyAll(r, keys[1..], Copy(r, keys[0], to))
  }

  function KeySet(keys: seq<Key>): set<Key> { set i | 0 <= i < |keys| :: keys[i] }

  predicate Distinct(keys: seq<Key>) { forall i, j :: 0 <= i < j < |keys| ==> keys[i] != keys[j] }

  /** The three keys that no rule can do without suffice: the rule is named after its id, enabled, not ignored, a wired DualSense,
      and found by any interface and endpoints. */
  lemma ShortRule(r: Rule)
    ensures var keys := [Vid, Pid, Protocol];
      Named(Draft(CopyAll(r, keys, NewRule(r.id)), KeySet(keys)))
      == Rule(r.id, r.id, 1, 0, r.vid, r.pid, r.protocol, 0, 0, -1, 0, "", "")
  {
    var keys := [Vid, Pid, Protocol];
    assert keys[1..] == [Pid, Protocol] && keys[1..][1..] == [Protocol] && keys[1..][1..][1..] == [];
    var start := NewRule(r.id);
    var a := Copy(r, Vid, start);
    var b := Copy(r, Pid, a);
    assert CopyAll(r, [Protocol], b) == Copy(r, Protocol, b);
    assert CopyAll(r, [Pid, Protocol], a) == CopyAll(r, [Protocol], b);
    assert CopyAll(r, keys, start) == CopyAll(r, [Pid, Protocol], a);
    assert Name !in KeySet(keys);
  }

  lemma LineReads(at: Cursor<Parsed>, r: Rule, k: Key)
    requires Valid(r)
    ensures Clean(KeyText(k) + "=" + ValueText(r, k)) && |KeyText(k) + "=" + ValueText(r, k)| < 127
    ensures Feed(Enter, at, KeyText(k) + "=" + ValueText(r, k))
         == match Enter(at.state, at.section, KeyText(k), Unquote(ValueText(r, k)))
            { case None => None case Some(next) => Some(at.(state := next)) }
  {
    hide Enter, KeyText, ValueText, Unquote, Interpret, Valid, Cut;
    var line := KeyText(k) + "=" + ValueText(r, k);
    FieldReads(r, k, r);
    KeyPlain(k);
    CutClean(line);
    InterpretEntry(KeyText(k), ValueText(r, k));
  }

  /** The keys of a rule, in any order without repetition, set exactly its fields. */
  lemma {:induction false} KeysRead(base: Parsed, d: Draft, r: Rule, keys: seq<Key>)
    requires Valid(r) && d.rule.id == r.id && Absent(base.drafts, r.id)
    requires Distinct(keys) && d.seen !! KeySet(keys)
    ensures FeedAll(Enter, Cursor(SectionOf(r), Reading(base, d)), KeyLines(r, keys))
         == Some(Cursor(SectionOf(r), Reading(base, Draft(CopyAll(r, keys, d.rule), d.seen + KeySet(keys)))))
    decreases |keys|
  {
    hide Feed, Valid, Enter, ValueText, Copy, Reading, Absent;
    if keys == [] {
      assert KeySet(keys) == {};
      assert d.seen + KeySet(keys) == d.seen;
    } else {
      var k, rest := keys[0], keys[1..];
      var at := Cursor(SectionOf(r), Reading(base, d));
      var next := Draft(Copy(r, k, d.rule), d.seen + {k});
      FieldReads(r, k, d.rule);
      LineReads(at, r, k);
      CopyKeepsId(r, k, d.rule);
      IdOf(r);
      assert k in KeySet(keys);
      EnterLast(base, d, k, Unquote(ValueText(r, k)), next.rule);
      assert KeySet(keys) == {k} + KeySet(rest) by { SplitKeys(keys); }
      assert KeyLines(r, keys)[1..] == KeyLines(r, rest);
      KeysRead(base, next, r, rest);
      assert next.seen + KeySet(rest) == d.seen + KeySet(keys);
    }
  }

  lemma IdOf(r: Rule)
    requires Valid(r)
    ensures ValidId(r.id) && |r.id| < ID_MAX
  {
  }

  lemma CopyKeepsId(r: Rule, k: Key, to: Rule)
    ensures Copy(r, k, to).id == to.id
  {
  }

  lemma SplitKeys(keys: seq<Key>)
    requires keys != [] && Distinct(keys)
    ensures KeySet(keys) == {keys[0]} + KeySet(keys[1..]) && keys[0] !in KeySet(keys[1..]) && Distinct(keys[1..])
  {
    forall k | k in KeySet(keys) ensures k in {keys[0]} + KeySet(keys[1..]) {
      var i :| 0 <= i < |keys| && keys[i] == k;
      if i > 0 { assert keys[1..][i - 1] == k; }
    }
    forall k | k in KeySet(keys[1..]) ensures k in KeySet(keys) && k != keys[0] {
      var i :| 0 <= i < |keys[1..]| && keys[1..][i] == k;
      assert keys[i + 1] == k;
    }
  }

  // ---- a whole file --------------------------------------------------------------------------

  lemma {:induction false} CopyAppend(r: Rule, a: seq<Key>, b: seq<Key>, to: Rule)
    ensures CopyAll(r, a + b, to) == CopyAll(r, b, CopyAll(r, a, to))
  {
    hide Copy;
    if a == [] {
      assert a + b == b;
    } else {
      assert (a + b)[1..] == a[1..] + b;
      CopyAppend(r, a[1..], b, Copy(r, a[0], to));
    }
  }

  lemma CopyTwo(r: Rule, a: Key, b: Key, to: Rule)
    ensures CopyAll(r, [a, b], to) == Copy(r, b, Copy(r, a, to))
  {
    var mid := Copy(r, a, to);
    assert [a, b][1..] == [b] && [b][1..] == [];
    assert CopyAll(r, [b], mid) == CopyAll(r, [], Copy(r, b, mid));
  }

  /** All the keys together make the rule; without instance keys, a rule that has none. */
  lemma CopiesWhole(r: Rule, schema: nat)
    requires schema != 2 ==> r.instanceId == "" && r.profileId == ""
    ensures CopyAll(r, Keys(schema), NewRule(r.id)) == r
  {
    var to := NewRule(r.id);
    var a, b, c, d, e := [Name, Enabled], [Ignored, Vid], [Pid, Protocol], [Interface, InEndpoint], [OutEndpoint, OutputType];
    assert MODEL_KEYS == a + (b + (c + (d + e)));
    CopyAppend(r, a, b + (c + (d + e)), to);
    CopyTwo(r, Name, Enabled, to);
    to := CopyAll(r, a, to);
    CopyAppend(r, b, c + (d + e), to);
    CopyTwo(r, Ignored, Vid, to);
    to := CopyAll(r, b, to);
    CopyAppend(r, c, d + e, to);
    CopyTwo(r, Pid, Protocol, to);
    to := CopyAll(r, c, to);
    CopyAppend(r, d, e, to);
    CopyTwo(r, Interface, InEndpoint, to);
    to := CopyAll(r, d, to);
    CopyTwo(r, OutEndpoint, OutputType, to);
    to := CopyAll(r, e, to);
    CopyAppend(r, MODEL_KEYS, [InstanceId, ProfileId], NewRule(r.id));
    CopyTwo(r, InstanceId, ProfileId, to);
  }

  lemma KeysDistinct(schema: nat)
    ensures Distinct(Keys(schema)) && 0 < |Keys(schema)| <= 12
    ensures forall k :: k in {Name, Vid, Pid} ==> k in KeySet(Keys(schema))
    ensures InstanceId in KeySet(Keys(schema)) <==> schema == 2
    ensures ProfileId in KeySet(Keys(schema)) <==> schema == 2
  {
    var keys := Keys(schema);
    assert keys[0] == Name && keys[3] == Vid && keys[4] == Pid;
    if schema == 2 { assert keys[10] == InstanceId && keys[11] == ProfileId; }
  }

  /** The draft a written rule leaves. */
  function Finished(r: Rule, schema: nat): Draft { Draft(r, KeySet(Keys(schema))) }

  function FinishedAll(rules: seq<Rule>, schema: nat): seq<Draft> {
    seq(|rules|, i requires 0 <= i < |rules| => Finished(rules[i], schema))
  }

  lemma BlankReads(at: Cursor<Parsed>)
    ensures Feed(Enter, at, "") == Some(at) && Clean("")
  {
    CutClean("");
    InterpretBlank();
  }

  lemma OpenReads(at: Cursor<Parsed>, id: string)
    requires ValidId(id) && |id| < ID_MAX
    ensures Feed(Enter, at, "[" + ("controller:" + id) + "]") == Some(at.(section := "controller:" + id))
  {
    hide Interpret, Cut;
    SectionReads(id);
    CutClean("[" + ("controller:" + id) + "]");
  }

  /** One written rule is read as that rule, after those before it. */
  lemma RuleReads(at: Cursor<Parsed>, r: Rule, schema: nat)
    requires Valid(r) && Absent(at.state.drafts, r.id) && |at.state.drafts| < MAX_RULES
    requires schema != 2 ==> r.instanceId == "" && r.profileId == ""
    ensures FeedAll(Enter, at, RuleLines(r, schema))
         == Some(Cursor(SectionOf(r), Reading(at.state, Finished(r, schema))))
  {
    hide Feed, Valid, Enter, ValueText, Copy, CopyAll, Absent, Keys, KeySet, ValidId, Distinct;
    var keys, base := Keys(schema), at.state;
    var lines := KeyLines(r, keys);
    var inside := at.(section := SectionOf(r));
    IdOf(r);
    BlankReads(at);
    OpenReads(at, r.id);
    var all := RuleLines(r, schema);
    assert all[0] == "" && all[1..][0] == "[" + SectionOf(r) + "]" && all[1..][1..] == lines;
    assert FeedAll(Enter, at, all) == FeedAll(Enter, inside, lines);
    KeysDistinct(schema);
    var d := Draft(NewRule(r.id), {});
    FirstKey(inside, r, keys);
    KeysRead(base, d, r, keys);
    CopiesWhole(r, schema);
    assert d.seen + KeySet(keys) == KeySet(keys);
  }

  /** Reading the first key creates the rule. */
  lemma FirstKey(at: Cursor<Parsed>, r: Rule, keys: seq<Key>)
    requires Valid(r) && Absent(at.state.drafts, r.id) && |at.state.drafts| < MAX_RULES && keys != []
    requires at.section == SectionOf(r)
    ensures FeedAll(Enter, at, KeyLines(r, keys))
         == FeedAll(Enter, at.(state := Reading(at.state, Draft(NewRule(r.id), {}))), KeyLines(r, keys))
  {
    hide Feed, Valid, Enter, ValueText, Absent, Reading, ValidId, KeyText;
    var k := keys[0];
    var next := at.(state := Reading(at.state, Draft(NewRule(r.id), {})));
    IdOf(r);
    LineReads(at, r, k);
    LineReads(next, r, k);
    EnterNew(at.state, r.id, k, Unquote(ValueText(r, k)));
    assert KeyLines(r, keys)[0] == KeyText(k) + "=" + ValueText(r, k);
  }

  predicate DistinctIds(rules: seq<Rule>) { forall i, j :: 0 <= j < i < |rules| ==> rules[i].id != rules[j].id }

  lemma {:induction false} RulesRead(at: Cursor<Parsed>, rules: seq<Rule>, schema: nat)
    requires at.state.drafts == [] && |rules| <= MAX_RULES && DistinctIds(rules)
    requires forall i :: 0 <= i < |rules| ==> Valid(rules[i])
    requires schema != 2 ==> forall i :: 0 <= i < |rules| ==> rules[i].instanceId == "" && rules[i].profileId == ""
    ensures FeedAll(Enter, at, AllLines(rules, schema)).Some?
    ensures FeedAll(Enter, at, AllLines(rules, schema)).value.state == at.state.(drafts := FinishedAll(rules, schema))
    decreases |rules|
  {
    hide Feed, Valid, Enter, RuleLines, Finished;
    if rules == [] {
      assert FinishedAll(rules, schema) == [];
    } else {
      var n := |rules| - 1;
      var front, last := rules[..n], rules[n];
      RulesRead(at, front, schema);
      var mid := FeedAll(Enter, at, AllLines(front, schema)).value;
      FeedConcat(Enter, at, AllLines(front, schema), RuleLines(last, schema), mid);
      assert Absent(mid.state.drafts, last.id) by { FinishedIds(front, schema); }
      RuleReads(mid, last, schema);
      assert FinishedAll(front, schema) + [Finished(last, schema)] == FinishedAll(rules, schema);
    }
  }

  lemma FinishedIds(rules: seq<Rule>, schema: nat)
    ensures forall i :: 0 <= i < |rules| ==> FinishedAll(rules, schema)[i].rule == rules[i]
  {
  }

  // ---- size ----------------------------------------------------------------------------------

  predicate Short(lines: seq<string>) { forall i :: 0 <= i < |lines| ==> |lines[i]| < 127 && Clean(lines[i]) }

  lemma {:induction false} ShortText(lines: seq<string>)
    requires Short(lines)
    ensures |Unlines(lines)| <= 127 * |lines|
    ensures forall i :: 0 <= i < |Unlines(lines)| ==> Unlines(lines)[i] != '\0'
    decreases |lines|
  {
    if lines != [] {
      ShortText(lines[1..]);
      var rest := Unlines(lines[1..]);
      forall i | 0 <= i < |Unlines(lines)| ensures Unlines(lines)[i] != '\0' {
        if i > |lines[0]| { assert Unlines(lines)[i] == rest[i - |lines[0]| - 1]; }
      }
    }
  }

  lemma RuleShort(r: Rule, schema: nat)
    requires Valid(r)
    ensures Short(RuleLines(r, schema)) && |RuleLines(r, schema)| <= 14
  {
    hide ValueText, KeyText, Valid, Feed, Enter, Keys, Interpret, ValidId, HasPrefixFold;
    var keys := Keys(schema);
    KeysDistinct(schema);
    IdOf(r);
    SectionReads(r.id);
    forall i | 0 <= i < |keys|
      ensures Clean(KeyLines(r, keys)[i]) && |KeyLines(r, keys)[i]| < 127
    {
      LineReads(Cursor("", Parsed([], 0)), r, keys[i]);
    }
  }

  lemma {:induction false} AllShort(rules: seq<Rule>, schema: nat)
    requires forall i :: 0 <= i < |rules| ==> Valid(rules[i])
    ensures Short(AllLines(rules, schema)) && |AllLines(rules, schema)| <= 14 * |rules|
    decreases |rules|
  {
    hide Valid, RuleLines, Clean;
    if rules != [] {
      AllShort(rules[..|rules| - 1], schema);
      RuleShort(rules[|rules| - 1], schema);
    }
  }

  // ---- main results --------------------------------------------------------------------------

  /** Storable rules always fit: writing fails only for rules that must not be stored. */
  lemma SerializesIff(rules: seq<Rule>)
    ensures Serialize(rules).Some? <==> Storable(rules)
  {
    if Storable(rules) {
      TextShort(rules);
    }
  }

  lemma TextShort(rules: seq<Rule>)
    requires Storable(rules)
    ensures |Text(rules)| < FILE_MAX && Readable(Text(rules))
    ensures Short(HeaderLines(SchemaOf(rules)) + AllLines(rules, SchemaOf(rules)))
  {
    hide Valid, AllLines, Unlines;
    var schema := SchemaOf(rules);
    AllShort(rules, schema);
    ShortText(HeaderLines(schema) + AllLines(rules, schema));
  }

  function SchemaText(schema: nat): string { if schema == 2 then "2" else "1" }

  lemma HeaderSection()
    ensures Feed(Enter, Cursor("", Parsed([], 0)), "[ghostcontrol]") == Some(Cursor("ghostcontrol", Parsed([], 0)))
  {
    hide Interpret, Unquote, ParseUnsigned, Cut;
    CutClean("[ghostcontrol]");
    assert "[" + "ghostcontrol" + "]" == "[ghostcontrol]";
    InterpretSection("ghostcontrol");
    assert SameFold("ghostcontrol", "ghostcontrol");
  }

  lemma HeaderEntry(schema: nat)
    requires schema == 1 || schema == 2
    ensures Feed(Enter, Cursor("ghostcontrol", Parsed([], 0)), "schema=" + SchemaText(schema))
         == Some(Cursor("ghostcontrol", Parsed([], schema)))
  {
    hide Interpret, Unquote, ParseUnsigned, Cut;
    var value, line := SchemaText(schema), "schema=" + SchemaText(schema);
    CutClean(line);
    assert "schema" + "=" + value == line;
    InterpretEntry("schema", value);
    SchemaNumber(schema, value);
    assert SameFold("ghostcontrol", "ghostcontrol") && SameFold("schema", "schema");
  }

  lemma HeaderReads(schema: nat)
    requires schema == 1 || schema == 2
    ensures FeedAll(Enter, Cursor("", Parsed([], 0)), HeaderLines(schema)) == Some(Cursor("ghostcontrol", Parsed([], schema)))
  {
    hide Feed, Enter;
    var open, line := "[ghostcontrol]", "schema=" + SchemaText(schema);
    HeaderSection();
    HeaderEntry(schema);
    assert line == if schema == 2 then "schema=2" else "schema=1";
    FeedBoth(Cursor("", Parsed([], 0)), open, line);
  }

  lemma FeedBoth(at: Cursor<Parsed>, open: string, line: string)
    requires Feed(Enter, at, open).Some?
    ensures FeedAll(Enter, at, [open, line]) == Feed(Enter, Feed(Enter, at, open).value, line)
  {
    hide Feed, Enter;
    var inside := Feed(Enter, at, open).value;
    assert [open, line][1..] == [line] && [line][1..] == [];
    assert FeedAll(Enter, at, [open, line]) == FeedAll(Enter, inside, [line]);
    if Feed(Enter, inside, line).Some? {
      var end := Feed(Enter, inside, line).value;
      assert FeedAll(Enter, inside, [line]) == FeedAll(Enter, end, []);
    }
  }

  lemma SchemaNumber(schema: nat, value: string)
    requires (schema == 1 && value == "1") || (schema == 2 && value == "2")
    ensures ParseUnsigned(value, 1, 2) == Some(schema) && Unquote(value) == value
  {
    assert value[..0] == "";
    assert Number(value[..0], 10) == Some(0);
    assert Number(value, 10) == Some(schema);
  }

  lemma FinishedOk(rules: seq<Rule>, schema: nat)
    requires Storable(rules) && (schema == 1 || schema == 2)
    ensures Finish(Parsed(FinishedAll(rules, schema), schema)) == Some(rules)
  {
    hide Valid, Keys, KeySet;
    KeysDistinct(schema);
    var drafts := FinishedAll(rules, schema);
    forall i | 0 <= i < |drafts| ensures DraftOk(drafts[i], schema) && Named(drafts[i]) == rules[i] {
      assert drafts[i] == Finished(rules[i], schema);
      assert Name in drafts[i].seen;
    }
    var out := Finish(Parsed(drafts, schema));
    assert out.Some? && out.value == rules;
  }

  /** Round trip: what is written for any storable list of rules reads back as the same rules in the same order. */
  lemma LoadSerialize(rules: seq<Rule>)
    requires Storable(rules)
    ensures Load(Text(rules)) == Some(rules)
  {
    hide Finish, Valid, Unlines, Enter, AllLines, FinishedAll, Readable;
    var schema := SchemaOf(rules);
    var start, header, all := Cursor("", Parsed([], 0)), HeaderLines(schema), AllLines(rules, schema);
    var at := Cursor("ghostcontrol", Parsed([], schema));
    TextShort(rules);
    ParseLines(Enter, start, header + all);
    HeaderReads(schema);
    FeedConcat(Enter, start, header, all, at);
    RulesRead(at, rules, schema);
    FinishedOk(rules, schema);
  }

  // ---- what is read can be written -----------------------------------------------------------

  ghost predicate Wellformed(p: Parsed) {
    && |p.drafts| <= MAX_RULES
    && forall i, j :: 0 <= j < i < |p.drafts| ==> p.drafts[i].rule.id != p.drafts[j].rule.id
  }

  lemma EnterWellformed(p: Parsed, section: string, key: string, value: string)
    requires Wellformed(p) && Enter(p, section, key, value).Some?
    ensures Wellformed(Enter(p, section, key, value).value)
  {
    hide ParseUnsigned, KeyOf, ValidId, SameFold, Assign;
    forall r: Rule, k, v | Assign(r, k, v).Some? ensures Assign(r, k, v).value.id == r.id {
      AssignKeepsId(r, k, v);
    }
  }

  lemma AssignKeepsId(r: Rule, k: Key, v: string)
    requires Assign(r, k, v).Some?
    ensures Assign(r, k, v).value.id == r.id
  {
  }

  lemma {:induction false} ParseWellformed(text: string, at: Cursor<Parsed>)
    requires Wellformed(at.state) && Parse(Enter, text, at).Some?
    ensures Wellformed(Parse(Enter, text, at).value)
    decreases |text|
  {
    hide Wellformed, Enter, ReadLine, Interpret;
    if text != "" {
      var line, rest := ReadLine(text, "").line, ReadLine(text, "").rest;
      match Interpret(Cut(line)) {
        case Entry(key, value) => EnterWellformed(at.state, at.section, key, value);
        case _ =>
      }
      ParseWellformed(rest, Feed(Enter, at, line).value);
    }
  }

  /** Whatever a file holds, the rules read from it are storable: valid, and no id or controller twice. */
  lemma LoadStorable(text: string)
    requires Load(text).Some?
    ensures Storable(Load(text).value)
  {
    hide Enter, Parse, Valid;
    var p := Parse(Enter, text, Cursor("", Parsed([], 0))).value;
    ParseWellformed(text, Cursor("", Parsed([], 0)));
    var rules := Load(text).value;
    assert forall i :: 0 <= i < |rules| ==> rules[i] == Named(p.drafts[i]) && DraftOk(p.drafts[i], p.schema);
  }

  /** So rewriting a readable file, by hand or otherwise, changes no rule. */
  lemma RewriteKeepsRules(text: string)
    requires Load(text).Some?
    ensures var rules := Load(text).value;
      Serialize(rules).Some? && Load(Serialize(rules).value) == Some(rules)
  {
    hide Enter, Parse, Storable, Text;
    LoadStorable(text);
    SerializesIff(Load(text).value);
    LoadSerialize(Load(text).value);
  }

  // ---- the operations ------------------------------------------------------------------------

  /** The checks that follow the scan, rule by rule. */
  method LoadControllers(text: string) returns (r: Option<seq<Rule>>)
    ensures r == Load(text)
  {
    hide Parse, Enter, Valid;
    if |text| > FILE_MAX || '\0' in text { return None; }
    assert Readable(text);
    var scanned := Scan(text, Enter, Parsed([], 0));
    if scanned.None? { return None; }
    var p := scanned.value;
    if p.schema == 0 { return None; }
    var rules: seq<Rule> := [];
    for index := 0 to |p.drafts|
      invariant |rules| == index
      invariant forall i :: 0 <= i < index ==> DraftOk(p.drafts[i], p.schema) && rules[i] == Named(p.drafts[i])
      invariant forall i, j :: 0 <= j < i < index ==> !SameTarget(p.drafts[i].rule, p.drafts[j].rule)
    {
      var d := p.drafts[index];
      var instance, profile := InstanceId in d.seen, ProfileId in d.seen;
      if (p.schema == 1 && (instance || profile)) || (p.schema == 2 && !(instance && profile)) { return None; }
      var rule := d.rule;
      if Name !in d.seen { rule := rule.(name := rule.id); }
      if Vid !in d.seen || Pid !in d.seen || !Valid(rule) { return None; }
      for other := 0 to index
        invariant forall j :: 0 <= j < other ==> !SameTarget(d.rule, p.drafts[j].rule)
      {
        if SameTarget(rule, rules[other]) { return None; }
      }
      rules := rules + [rule];
    }
    assert rules == seq(|p.drafts|, i requires 0 <= i < |p.drafts| => Named(p.drafts[i]));
    return Some(rules);
  }

  function TextSoFar(rules: seq<Rule>, n: nat, schema: nat): string
    requires n <= |rules|
  {
    Unlines(HeaderLines(schema) + AllLines(rules[..n], schema))
  }

  lemma TextGrows(rules: seq<Rule>, n: nat, schema: nat)
    requires n < |rules|
    ensures TextSoFar(rules, n + 1, schema) == TextSoFar(rules, n, schema) + Unlines(RuleLines(rules[n], schema))
  {
    hide RuleLines, Unlines;
    var header, front, last := HeaderLines(schema), AllLines(rules[..n], schema), RuleLines(rules[n], schema);
    assert rules[..n + 1][..n] == rules[..n];
    assert header + (front + last) == header + front + last;
    UnlinesConcat(header + front, last);
  }

  lemma {:induction false} TextMonotone(rules: seq<Rule>, n: nat, schema: nat)
    requires n <= |rules|
    ensures |TextSoFar(rules, n, schema)| <= |TextSoFar(rules, |rules|, schema)|
    decreases |rules| - n
  {
    hide TextSoFar, RuleLines, Unlines;
    if n < |rules| {
      TextGrows(rules, n, schema);
      TextMonotone(rules, n + 1, schema);
    }
  }

  /** Two passes: the schema the rules need, then header and rules into a bounded buffer. */
  method SerializeControllers(rules: seq<Rule>) returns (r: Option<string>)
    ensures r == Serialize(rules)
  {
    hide Valid, TextSoFar, RuleLines, Unlines;
    if |rules| > MAX_RULES { return None; }
    var schema := 1;
    for i := 0 to |rules|
      invariant forall j :: 0 <= j < i ==> Valid(rules[j])
      invariant schema == if exists j :: 0 <= j < i && (rules[j].instanceId != "" || rules[j].profileId != "") then 2 else 1
    {
      if !Valid(rules[i]) { return None; }
      if rules[i].instanceId != "" || rules[i].profileId != "" { schema := 2; }
    }
    assert schema == SchemaOf(rules);
    var text := Unlines(HeaderLines(schema));
    TextStart(rules, schema);
    TextWhole(rules);
    for index := 0 to |rules|
      invariant text == TextSoFar(rules, index, schema)
      invariant forall i, j :: 0 <= j < i < index ==> rules[i].id != rules[j].id && !SameTarget(rules[i], rules[j])
      invariant |text| < FILE_MAX
    {
      for other := 0 to index
        invariant forall j :: 0 <= j < other ==> rules[index].id != rules[j].id && !SameTarget(rules[index], rules[j])
      {
        if rules[index].id == rules[other].id || SameTarget(rules[index], rules[other]) { return None; }
      }
      var written := Unlines(RuleLines(rules[index], schema));
      TextGrows(rules, index, schema);
      if |written| >= FILE_MAX - |text| {
        TextMonotone(rules, index + 1, schema);
        return None;
      }
      text := text + written;
    }
    return Some(text);
  }

  lemma TextStart(rules: seq<Rule>, schema: nat)
    ensures TextSoFar(rules, 0, schema) == Unlines(HeaderLines(schema)) && |Unlines(HeaderLines(schema))| < FILE_MAX
  {
    assert rules[..0] == [];
    assert HeaderLines(schema) + [] == HeaderLines(schema);
    ShortText(HeaderLines(schema));
  }

  lemma TextWhole(rules: seq<Rule>)
    ensures TextSoFar(rules, |rules|, SchemaOf(rules)) == Text(rules)
  {
    assert rules[..|rules|] == rules;
  }
}
