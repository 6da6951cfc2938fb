/** The controller rules and their file: reading, checking and writing `controllers.ini`.

    A rule's strings are C strings of bounded length. The file has two forms: schema 1 without instance rules, and
    schema 2, in which every rule names its instance and profile. */
module Controllers {
  import opened Bytes
  import opened Ini
  import opened Wrappers

  const MAX_RULES: nat := 32
  const FILE_MAX: nat := 65536
  const ID_MAX: nat := 64
  const NAME_MAX: nat := 96
  const ULONG: nat := 0x1_0000_0000_0000_0000

  type U16 = x: nat | x < 0x1_0000

  datatype Rule = Rule(id: string, name: string, enabled: int, ignored: int, vid: U16, pid: U16, protocol: string,
                       inEndpoint: Byte, outEndpoint: Byte, interfaceNumber: int, outputType: int,
                       instanceId: string, profileId: string)

  // ---- values --------------------------------------------------------------------------------

  function Lower(c: char): char { if 'A' <= c <= 'Z' then (c as int + 32) as char else c }

  predicate SameFold(a: string, b: string) {
    |a| == |b| && forall i :: 0 <= i < |a| ==> Lower(a[i]) == Lower(b[i])
  }

  predicate IdChar(c: char) {
    'A' <= c <= 'Z' || 'a' <= c <= 'z' || '0' <= c <= '9' || c == '-' || c == '_' || c == '.'
  }

  predicate ValidId(s: string) {
    s != "" && (forall i :: 0 <= i < |s| ==> IdChar(s[i])) && s != "." && s != ".."
  }

  /** The display form of a Classic Bluetooth address, neither all zeros nor all ones. */
  predicate ValidInstance(s: string) {
    && |s| == 23 && s[..11] == "bt-classic:"
    && (forall i :: 11 <= i < 23 ==> '0' <= s[i] <= '9' || 'A' <= s[i] <= 'F')
    && (exists i :: 11 <= i < 23 && s[i] != '0') && exists i :: 11 <= i < 23 && s[i] != 'F'
  }

  predicate ValidProtocol(s: string) {
    s in {"nintendo", "xbox_gip", "xusb", "ds3", "ds4", "logitech", "hid", "dinput"}
  }

  predicate ValidName(s: string) {
    0 < |s| < NAME_MAX && forall i :: 0 <= i < |s| ==> s[i] >= ' ' && s[i] as int != 0x7f && s[i] != '|'
  }

  /** An input endpoint address: direction bit set, reserved bits clear, number not 0; or 0 for automatic. */
  predicate ValidIn(e: Byte) { e == 0 || (e >= 0x80 && e / 16 % 8 == 0 && e % 16 != 0) }

  predicate ValidOut(e: Byte) { e == 0 || (e / 16 == 0 && e % 16 != 0) }

  function OutputName(t: int): Option<string> {
    if t == 0 then Some("ds5") else if t == 1 then Some("ds4") else if t == 2 then Some("psvr2_left")
    else if t == 3 then Some("psvr2_right") else None
  }

  predicate Valid(r: Rule) {
    && ValidId(r.id) && |r.id| < ID_MAX
    && (r.instanceId != "" ==> ValidInstance(r.instanceId) && r.id != "auto" && r.id != "default")
    && (r.instanceId == "" ==> r.profileId == "")
    && (r.profileId != "" ==> ValidId(r.profileId)) && |r.profileId| < ID_MAX
    && ValidName(r.name) && r.vid != 0 && ValidProtocol(r.protocol) && OutputName(r.outputType).Some?
    && (r.ignored == 0 || r.ignored == 1) && -1 <= r.interfaceNumber <= 255
    && ValidIn(r.inEndpoint) && ValidOut(r.outEndpoint)
    && (r.protocol == "ds3" ==> r.outEndpoint == 0)
    && (r.enabled == 0 || r.enabled == 1)
  }

  predicate SameTarget(a: Rule, b: Rule) { a.vid == b.vid && a.pid == b.pid && a.instanceId == b.instanceId }

  /** What may be stored: valid rules, no id twice, no controller twice. */
  predicate Storable(rules: seq<Rule>) {
    && |rules| <= MAX_RULES && (forall i :: 0 <= i < |rules| ==> Valid(rules[i]))
    && forall i, j :: 0 <= j < i < |rules| ==> rules[i].id != rules[j].id && !SameTarget(rules[i], rules[j])
  }

  // ---- numbers as text -----------------------------------------------------------------------

  function DigitValue(c: char): nat {
    if '0' <= c <= '9' then c as nat - '0' as nat
    else if 'a' <= c <= 'z' then c as nat - 'a' as nat + 10
    else if 'A' <= c <= 'Z' then c as nat - 'A' as nat + 10
    else 99
  }

  function Number(s: string, base: nat): Option<nat> {
    if s == "" then Some(0)
    else
      var d := DigitValue(s[|s| - 1]);
      match Number(s[..|s| - 1], base)
      case None => None
      case Some(v) => if d < base then Some(v * base + d) else None
  }

  function SkipSpace(s: string): string {
    if s != "" && IsSpace(s[0]) then SkipSpace(s[1..]) else s
  }

  /** The C library's base-0 conversion of the whole text, then the range check. */
  function ParseUnsigned(s: string, minimum: nat, maximum: nat): Option<nat> {
    var t := SkipSpace(s);
    var negative := t != "" && t[0] == '-';
    var u := if t != "" && (t[0] == '-' || t[0] == '+') then t[1..] else t;
    var hex := |u| >= 3 && u[0] == '0' && (u[1] == 'x' || u[1] == 'X') && DigitValue(u[2]) < 16;
    var base := if hex then 16 else if u != "" && u[0] == '0' then 8 else 10;
    if u == "" then None
    else
      match Number(if hex then u[2..] else u, base)
      case None => None
      case Some(magnitude) =>
        if magnitude >= ULONG then None
        else
          var v := if negative && magnitude > 0 then ULONG - magnitude else magnitude;
          if minimum <= v <= maximum then Some(v) else None
  }

  function ParseBool(s: string): Option<int> {
    if SameFold(s, "true") || s == "1" || SameFold(s, "yes") || SameFold(s, "on") then Some(1)
    else if SameFold(s, "false") || s == "0" || SameFold(s, "no") || SameFold(s, "off") then Some(0)
    else None
  }

  function ParseEndpoint(s: string, input: bool): Option<Byte> {
    if SameFold(s, "auto") || s == "0" then Some(0)
    else
      match ParseUnsigned(s, 1, 255)
      case None => None
      case Some(v) => if (v >= 0x80) == input && v / 16 % 8 == 0 && v % 16 != 0 then Some(v) else None
  }

  function ParseInterface(s: string): Option<int> {
    if SameFold(s, "auto") then Some(-1 as int)
    else
      match ParseUnsigned(s, 0, 255)
      case None => None
      case Some(v) => Some(v as int)
  }

  function ParseOutput(s: string): Option<int> {
    if s == "ds5" then Some(0) else if s == "ds4" then Some(1) else if s == "psvr2_left" then Some(2)
    else if s == "psvr2_right" then Some(3) else None
  }

  function Digit(d: nat): char
    requires d < 16
  {
    if d < 10 then ('0' as int + d) as char else ('a' as int + d - 10) as char
  }

  /** The last n hexadecimal digits. */
  function Hex(v: nat, n: nat): string {
    if n == 0 then "" else Hex(v / 16, n - 1) + [Digit(v % 16)]
  }

  function Decimal(v: nat): string {
    if v < 10 then [Digit(v)] else Decimal(v / 10) + [Digit(v % 10)]
  }

  // ---- keys ----------------------------------------------------------------------------------

  datatype Key =
    | Name | Enabled | Ignored | Vid | Pid | Protocol | Interface | InEndpoint | OutEndpoint | OutputType
    | InstanceId | ProfileId

  function KeyText(k: Key): string {
    match k
    case Name => "name"
    case Enabled => "enabled"
    case Ignored => "ignore"
    case Vid => "vid"
    case Pid => "pid"
    case Protocol => "protocol"
    case Interface => "interface"
    case InEndpoint => "in_endpoint"
    case OutEndpoint => "out_endpoint"
    case OutputType => "output_type"
    case InstanceId => "instance_id"
    case ProfileId => "profile_id"
  }

  function KeyOf(s: string): Option<Key> {
    if SameFold(s, "name") then Some(Name)
    else if SameFold(s, "enabled") then Some(Enabled)
    else if SameFold(s, "ignore") then Some(Ignored)
    else if SameFold(s, "vid") then Some(Vid)
    else if SameFold(s, "pid") then Some(Pid)
    else if SameFold(s, "protocol") then Some(Protocol)
    else if SameFold(s, "in_endpoint") then Some(InEndpoint)
    else if SameFold(s, "out_endpoint") then Some(OutEndpoint)
    else if SameFold(s, "output_type") then Some(OutputType)
    else if SameFold(s, "instance_id") then Some(InstanceId)
    else if SameFold(s, "profile_id") then Some(ProfileId)
    else if SameFold(s, "interface") then Some(Interface)
    else None
  }

  function Assign(r: Rule, k: Key, value: string): Option<Rule> {
    match k
    case Name => if ValidName(value) then Some(r.(name := value)) else None
    case Enabled => (match ParseBool(value) case None => None case Some(v) => Some(r.(enabled := v)))
    case Ignored => (match ParseBool(value) case None => None case Some(v) => Some(r.(ignored := v)))
    case Vid => (match ParseUnsigned(value, 1, 0xffff) case None => None case Some(v) => Some(r.(vid := v)))
    case Pid => (match ParseUnsigned(value, 0, 0xffff) case None => None case Some(v) => Some(r.(pid := v)))
    case Protocol => if ValidProtocol(value) then Some(r.(protocol := value)) else None
    case Interface => (match ParseInterface(value) case None => None case Some(v) => Some(r.(interfaceNumber := v)))
    case InEndpoint => (match ParseEndpoint(value, true) case None => None case Some(v) => Some(r.(inEndpoint := v)))
    case OutEndpoint => (match ParseEndpoint(value, false) case None => None case Some(v) => Some(r.(outEndpoint := v)))
    case OutputType => (match ParseOutput(value) case None => None case Some(v) => Some(r.(outputType := v)))
    case InstanceId => if value == "" || ValidInstance(value) then Some(r.(instanceId := value)) else None
    case ProfileId => if |value| < ID_MAX && (value == "" || ValidId(value)) then Some(r.(profileId := value)) else None
  }

  // ---- reading -------------------------------------------------------------------------------

  /** A rule under construction and the keys already given. */
  datatype Draft = Draft(rule: Rule, seen: set<Key>)

  /** `schema` is 0 until the schema line was read. */
  datatype Parsed = Parsed(drafts: seq<Draft>, schema: nat)

  function NewRule(id: string): Rule { Rule(id, "", 1, 0, 0, 0, "", 0, 0, -1, 0, "", "") }

  function IndexOf(drafts: seq<Draft>, id: string): (i: nat)
    ensures i <= |drafts| && (i < |drafts| ==> drafts[i].rule.id == id)
    ensures forall j :: 0 <= j < i ==> drafts[j].rule.id != id
  {
    if drafts == [] || drafts[0].rule.id == id then 0 else 1 + IndexOf(drafts[1..], id)
  }

  predicate HasPrefixFold(s: string, prefix: string) {
    |s| >= |prefix| && SameFold(s[..|prefix|], prefix)
  }

  /** One entry of the file. */
  function Enter(p: Parsed, section: string, key: string, value: string): Option<Parsed> {
    if (section == "" || SameFold(section, "ghostcontrol")) && SameFold(key, "schema") then
      if p.schema != 0 then None
      else
        match ParseUnsigned(value, 1, 2)
        case None => None
        case Some(schema) => Some(p.(schema := schema))
    else if !HasPrefixFold(section, "controller:") then None
    else
      var id := section[11..];
      if !ValidId(id) || |id| >= ID_MAX then None
      else
        var i := IndexOf(p.drafts, id);
        if i == |p.drafts| && i >= MAX_RULES then None
        else
          var drafts := if i == |p.drafts| then p.drafts + [Draft(NewRule(id), {})] else p.drafts;
          EnterKey(p, drafts, i, key, value)
  }

  function EnterKey(p: Parsed, drafts: seq<Draft>, i: nat, key: string, value: string): Option<Parsed>
    requires i < |drafts|
  {
    match KeyOf(key)
    case None => None
    case Some(k) =>
      if k in drafts[i].seen then None
      else
        match Assign(drafts[i].rule, k, value)
        case None => None
        case Some(rule) => Some(p.(drafts := drafts[i := Draft(rule, drafts[i].seen + {k})]))
  }

  function Named(d: Draft): Rule { if Name in d.seen then d.rule else d.rule.(name := d.rule.id) }

  predicate DraftOk(d: Draft, schema: nat) {
    && (schema == 1 ==> InstanceId !in d.seen && ProfileId !in d.seen)
    && (schema == 2 ==> InstanceId in d.seen && ProfileId in d.seen)
    && Vid in d.seen && Pid in d.seen && Valid(Named(d))
  }

  function Finish(p: Parsed): Option<seq<Rule>> {
    if && p.schema != 0 && (forall i :: 0 <= i < |p.drafts| ==> DraftOk(p.drafts[i], p.schema))
       && forall i, j :: 0 <= j < i < |p.drafts| ==> !SameTarget(p.drafts[i].rule, p.drafts[j].rule)
    then Some(seq(|p.drafts|, i requires 0 <= i < |p.drafts| => Named(p.drafts[i])))
    else None
  }

  predicate Readable(text: string) { |text| <= FILE_MAX && forall i :: 0 <= i < |text| ==> text[i] != '\0' }

  /** The rules in a file. */
  function Load(text: string): Option<seq<Rule>> {
    if !Readable(text) then None
    else
      match Parse(Enter, text, Cursor("", Parsed([], 0)))
      case None => None
      case Some(p) => Finish(p)
  }

  // ---- writing -------------------------------------------------------------------------------

  function BoolText(b: int): string { if b != 0 then "true" else "false" }

  function EndpointText(e: Byte): string { if e != 0 then "0x" + Hex(e, 2) else "auto" }

  function ValueText(r: Rule, k: Key): string {
    match k
    case Name => "\"" + r.name + "\""
    case Enabled => BoolText(r.enabled)
    case Ignored => BoolText(r.ignored)
    case Vid => "0x" + Hex(r.vid, 4)
    case Pid => "0x" + Hex(r.pid, 4)
    case Protocol => r.protocol
    case Interface => if r.interfaceNumber >= 0 then Decimal(r.interfaceNumber) else "auto"
    case InEndpoint => EndpointText(r.inEndpoint)
    case OutEndpoint => EndpointText(r.outEndpoint)
    case OutputType => (match OutputName(r.outputType) case Some(name) => name case None => "")
    case InstanceId => r.instanceId
    case ProfileId => r.profileId
  }

  const MODEL_KEYS: seq<Key> :=
    [Name, Enabled, Ignored, Vid, Pid, Protocol, Interface, InEndpoint, OutEndpoint, OutputType]

  function Keys(schema: nat): seq<Key> {
    if schema == 2 then MODEL_KEYS + [InstanceId, ProfileId] else MODEL_KEYS
  }

  function KeyLines(r: Rule, keys: seq<Key>): (lines: seq<string>)
    ensures |lines| == |keys|
  {
    seq(|keys|, i requires 0 <= i < |keys| => KeyText(keys[i]) + "=" + ValueText(r, keys[i]))
  }

  function SectionOf(r: Rule): string { "controller:" + r.id }

  function RuleLines(r: Rule, schema: nat): seq<string> {
    ["", "[" + SectionOf(r) + "]"] + KeyLines(r, Keys(schema))
  }

  function AllLines(rules: seq<Rule>, schema: nat): seq<string> {
    if rules == [] then [] else AllLines(rules[..|rules| - 1], schema) + RuleLines(rules[|rules| - 1], schema)
  }

  function SchemaOf(rules: seq<Rule>): nat {
    if exists i :: 0 <= i < |rules| && (rules[i].instanceId != "" || rules[i].profileId != "") then 2 else 1
  }

  function HeaderLines(schema: nat): seq<string> {
    ["[ghostcontrol]", if schema == 2 then "schema=2" else "schema=1"]
  }

  function Text(rules: seq<Rule>): string {
    Unlines(HeaderLines(SchemaOf(rules)) + AllLines(rules, SchemaOf(rules)))
  }

  function Serialize(rules: seq<Rule>): Option<string> {
    if Storable(rules) && |Text(rules)| < FILE_MAX then Some(Text(rules)) else None
  }
}
