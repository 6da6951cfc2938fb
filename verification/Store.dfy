/** What the configuration store promises, stated on snapshots of its state.

    A snapshot is the disk and the published memory with its generation and policy flags. Each mutator has a plan:
    the disk it would leave, or a refusal. `Done` lists the only ways it may end, whatever writes, renames, unlinks,
    reads and reloads fail; the theorems about runs follow from that list. Serializers and parsers other than the
    controller rules' are parameters (`Codec`): everything holds for every such choice. */
module Store {
  import opened Ini
  import opened Controllers
  import opened Profiles
  import opened Wrappers

  const UINT64_MAX: nat := 0xffff_ffff_ffff_ffff
  const MAX_PROFILES: nat := 128
  const INSTANCE_SCHEMA: int := 4

  datatype Runtime = Runtime(active: string, rest: nat)

  /** A directory entry. `Device` stands for anything else that is no regular file: a FIFO, a socket, a device node. */
  datatype Node = File(text: string) | Device | Link | Folder

  type Disk = map<string, Node>

  datatype Codec = Codec(runtimeText: Runtime -> Option<string>, readRuntime: string -> Option<Runtime>,
                         profileText: Profile -> Option<string>, parseProfile: string -> Option<Profile>,
                         readProfiles: Disk -> Option<seq<Profile>>,
                         applyKey: (Profile, string, string) -> Option<Profile>, newProfile: string -> Profile)

  const RUNTIME_PATH := "config.ini"
  const CONTROLLERS_PATH := "controllers.ini"

  function ProfilePath(id: string): string { "profiles/" + id + ".ini" }

  lemma PathsDistinct(a: string, b: string)
    ensures ProfilePath(a) != RUNTIME_PATH && ProfilePath(a) != CONTROLLERS_PATH && RUNTIME_PATH != CONTROLLERS_PATH
    ensures ProfilePath(a) == ProfilePath(b) ==> a == b
  {
    var p, q := ProfilePath(a), ProfilePath(b);
    assert p[0] == 'p' && RUNTIME_PATH[1] == 'o' && RUNTIME_PATH[2] == 'n' && CONTROLLERS_PATH[3] == 't' && RUNTIME_PATH[3] == 'f';
    assert p[9..|p| - 4] == a && q[9..|q| - 4] == b;
  }

  datatype Memory = Memory(runtime: Runtime, profiles: seq<Profile>, controllers: seq<Rule>)

  datatype Mode = Disabled | Companion | Live

  datatype Snapshot = Snapshot(disk: Disk, memory: Memory, generation: nat, valid: bool, exhausted: bool)

  function TextAt(disk: Disk, path: string): Option<string> {
    if path in disk && disk[path].File? then Some(disk[path].text) else None
  }

  /** Something that a write replaces: links are refused, and the rename onto a folder fails. */
  predicate Occupied(disk: Disk, path: string) { path in disk && (disk[path].File? || disk[path].Device?) }

  function Held(disk: Disk, path: string): Option<Node> { if path in disk then Some(disk[path]) else None }

  /** The disk after restoring one file to what was there. */
  function Put(disk: Disk, path: string, was: Option<string>): Disk {
    match was
    case None => disk - {path}
    case Some(text) => disk[path := File(text)]
  }

  function RulesOn(disk: Disk): Option<seq<Rule>> {
    match TextAt(disk, CONTROLLERS_PATH)
    case None => None
    case Some(text) => Load(text)
  }

  /** What a complete reload of the disk publishes, if it succeeds. */
  function View(codec: Codec, disk: Disk): Option<Memory> {
    match TextAt(disk, RUNTIME_PATH)
    case None => None
    case Some(text) =>
      match codec.readRuntime(text)
      case None => None
      case Some(runtime) =>
        match codec.readProfiles(disk)
        case None => None
        case Some(profiles) =>
          match RulesOn(disk)
          case None => None
          case Some(rules) => if AssociationsValid(rules, profiles) then Some(Memory(runtime, profiles, rules)) else None
  }

  // ---- how a mutator may end -----------------------------------------------------------------

  predicate Authorised(s: Snapshot) { s.valid && !s.exhausted }

  ghost predicate Sound(s: Snapshot) {
    s.generation <= UINT64_MAX && Storable(s.memory.controllers) && (s.exhausted ==> s.generation == UINT64_MAX)
  }

  predicate Published(codec: Codec, s: Snapshot, t: Snapshot, disk: Disk) {
    && t.disk == disk && View(codec, disk) == Some(t.memory)
    && t.valid && t.exhausted == s.exhausted && t.generation == s.generation + 1 <= UINT64_MAX && !s.exhausted
  }

  /** Every file has its old or its new content, whole. */
  ghost predicate Mixed(old_: Disk, new_: Disk, now: Disk) {
    forall path :: Held(now, path) == Held(old_, path) || Held(now, path) == Held(new_, path)
  }

  function Invalidated(s: Snapshot): Snapshot {
    var generation := if s.valid && s.generation < UINT64_MAX then s.generation + 1 else s.generation;
    s.(valid := false, generation := generation, exhausted := s.exhausted || generation == UINT64_MAX)
  }

  ghost predicate Quarantined(s: Snapshot, t: Snapshot, disk: Disk) {
    t == Invalidated(s).(disk := t.disk) && Mixed(s.disk, disk, t.disk)
  }

  /** The three ways out: published, exactly as before, or quarantined. A refused or unauthorised call changes
      nothing. */
  ghost predicate Done(codec: Codec, s: Snapshot, t: Snapshot, plan: Option<Disk>, committed: bool) {
    if plan.None? || !Authorised(s) then t == s && !committed
    else if committed then Published(codec, s, t, plan.value)
    else t == s || Quarantined(s, t, plan.value)
  }

  ghost predicate Reloaded(codec: Codec, s: Snapshot, t: Snapshot, ok: bool) {
    if ok then Published(codec, s, t, s.disk)
    else t == Invalidated(s)
  }

  // ---- rules ---------------------------------------------------------------------------------

  function FindId(rules: seq<Rule>, id: string): (i: nat)
    ensures i <= |rules| && (i < |rules| ==> rules[i].id == id) && forall j :: 0 <= j < i ==> rules[j].id != id
  {
    if rules == [] || rules[0].id == id then 0 else 1 + FindId(rules[1..], id)
  }

  function FindModel(rules: seq<Rule>, vid: U16, pid: U16): (i: nat)
    ensures i <= |rules|
    ensures i < |rules| ==> rules[i].instanceId == "" && rules[i].vid == vid && rules[i].pid == pid
    ensures forall j :: 0 <= j < i ==> !(rules[j].instanceId == "" && rules[j].vid == vid && rules[j].pid == pid)
  {
    if rules == [] || (rules[0].instanceId == "" && rules[0].vid == vid && rules[0].pid == pid) then 0
    else 1 + FindModel(rules[1..], vid, pid)
  }

  /** Replaces the rule with that id, or appends it. */
  function Enrol(rules: seq<Rule>, rule: Rule): seq<Rule> {
    var i := FindId(rules, rule.id);
    if i < |rules| then rules[i := rule] else rules + [rule]
  }

  datatype Request = Full | Legacy9 | Legacy10 | Legacy11 | OutputSet

  datatype Intent = Intent(mode: Request, outputPresent: bool, rule: Rule)

  predicate Reserved(id: string) { id == "auto" || id == "default" }

  predicate OnlyOutput(r: Rule) {
    && OutputName(r.outputType).Some? && r.name == "" && r.enabled == 0 && r.ignored == 0 && r.vid == 0 && r.pid == 0
    && r.protocol == "" && r.inEndpoint == 0 && r.outEndpoint == 0 && r.interfaceNumber == 0 && r.instanceId == ""
    && r.profileId == ""
  }

  predicate IntentValid(n: Intent) {
    var r := n.rule;
    && ValidId(r.id) && |r.id| < ID_MAX && !Reserved(r.id)
    && if n.mode.OutputSet? then n.outputPresent && OnlyOutput(r)
       else
         && n.outputPresent == (n.mode.Full? || n.mode.Legacy11?) && (!n.outputPresent ==> r.outputType == 0)
         && (n.mode.Legacy9? ==> r.interfaceNumber == 0) && (!n.mode.Full? ==> r.instanceId == "" && r.profileId == "")
         && Valid(r) && (n.mode.Full? ==> r.instanceId != "")
  }

  /** The rule an instance mutation leaves, given the one stored under its id. */
  function Merged(old_: Rule, n: Intent): Option<Rule> {
    var r := n.rule;
    if old_.instanceId == "" then None
    else if n.mode.OutputSet? then Some(old_.(outputType := r.outputType))
    else if old_.vid != r.vid || old_.pid != r.pid
            || (n.mode.Full? && (old_.instanceId != r.instanceId || old_.profileId != r.profileId)) then None
    else
      var interfaceNumber := if n.mode.Legacy9? then -1 else r.interfaceNumber;
      var m := r.(instanceId := old_.instanceId, profileId := old_.profileId, interfaceNumber := interfaceNumber,
                  outputType := if n.outputPresent then r.outputType else old_.outputType);
      if old_.profileId != "" && (old_.protocol != m.protocol || old_.interfaceNumber != m.interfaceNumber
                                  || old_.inEndpoint != m.inEndpoint || old_.outEndpoint != m.outEndpoint) then None
      else Some(m)
  }

  function InstancePlan(m: Memory, mode: Mode, n: Intent): Option<Rule> {
    if !IntentValid(n) || mode.Disabled? then None
    else
      var i := FindId(m.controllers, n.rule.id);
      var merged :=
        if i < |m.controllers| then Merged(m.controllers[i], n)
        else if n.mode.Full? && n.rule.profileId == "" && i < MAX_RULES then Some(n.rule) else None;
      match merged
      case None => None
      case Some(rule) =>
        var rules := Enrol(m.controllers, rule);
        if AssociationsValid(rules, m.profiles) && Storable(rules) then Some(rule) else None
  }

  function ModelPlan(m: Memory, rule: Rule, preserve: bool): Option<Rule> {
    var i := FindId(m.controllers, rule.id);
    if i < |m.controllers| && (m.controllers[i].vid != rule.vid || m.controllers[i].pid != rule.pid) then None
    else if i == |m.controllers| && i >= MAX_RULES then None
    else
      var merged := if preserve && i < |m.controllers| then rule.(outputType := m.controllers[i].outputType) else rule;
      if Storable(Enrol(m.controllers, merged)) then Some(merged) else None
  }

  /** A whole-rule save is routed by what is stored under its id. */
  function SaveIntent(m: Memory, rule: Rule, preserve: bool): Intent {
    var i := FindId(m.controllers, rule.id);
    if rule.instanceId != "" then
      Intent(Full, true, if preserve && i < |m.controllers| then rule.(outputType := m.controllers[i].outputType) else rule)
    else if preserve then Intent(Legacy10, false, rule.(outputType := 0))
    else Intent(Legacy11, true, rule)
  }

  function SavePlan(m: Memory, mode: Mode, rule: Rule, preserve: bool): Option<Rule> {
    var i := FindId(m.controllers, rule.id);
    if !Valid(rule) then None
    else if rule.instanceId != "" || (i < |m.controllers| && m.controllers[i].instanceId != "") then
      InstancePlan(m, mode, SaveIntent(m, rule, preserve))
    else ModelPlan(m, rule, preserve)
  }

  function BlankRule(id: string): Rule { Rule(id, "", 0, 0, 0, 0, "", 0, 0, 0, 0, "", "") }

  function OutputPlan(m: Memory, mode: Mode, id: string, outputType: int): Option<Rule> {
    var i := FindId(m.controllers, id);
    if !ValidId(id) || |id| >= ID_MAX || OutputName(outputType).None? || i == |m.controllers| then None
    else if m.controllers[i].instanceId != "" then
      InstancePlan(m, mode, Intent(OutputSet, true, BlankRule(id).(outputType := outputType)))
    else SavePlan(m, mode, m.controllers[i].(outputType := outputType), false)
  }

  predicate CompatValid(n: Intent) {
    var r := n.rule;
    if n.mode.OutputSet? then n.outputPresent && OnlyOutput(r)
    else
      && n.outputPresent == n.mode.Legacy11? && (!n.outputPresent ==> r.outputType == 0)
      && (n.mode.Legacy9? ==> r.interfaceNumber == 0) && r.instanceId == "" && r.profileId == "" && Valid(r)
  }

  function CompatPlan(m: Memory, mode: Mode, n: Intent): Option<Rule> {
    var i := FindId(m.controllers, n.rule.id);
    if n.mode.Full? || !ValidId(n.rule.id) || |n.rule.id| >= ID_MAX || !CompatValid(n)
       || (i == |m.controllers| && n.mode.OutputSet?) then None
    else if i < |m.controllers| && m.controllers[i].instanceId != "" then InstancePlan(m, mode, n)
    else
      var merged := if n.mode.OutputSet? then m.controllers[i].(outputType := n.rule.outputType)
                    else if n.mode.Legacy9? then n.rule.(interfaceNumber := -1) else n.rule;
      ModelPlan(m, merged, n.mode.Legacy9? || n.mode.Legacy10?)
  }

  /** The disk after the rules changed by one. */
  function RuleDisk(disk: Disk, m: Memory, rule: Option<Rule>): Option<Disk> {
    match rule
    case None => None
    case Some(r) => Some(disk[CONTROLLERS_PATH := File(Text(Enrol(m.controllers, r)))])
  }

  // ---- profiles and runtime ------------------------------------------------------------------

  function FindProfile(profiles: seq<Profile>, id: string): (i: nat)
    ensures i <= |profiles| && (i < |profiles| ==> profiles[i].id == id) && forall j :: 0 <= j < i ==> profiles[j].id != id
  {
    if profiles == [] || profiles[0].id == id then 0 else 1 + FindProfile(profiles[1..], id)
  }

  function RuntimePlan(codec: Codec, s: Snapshot, runtime: Runtime): Option<Disk> {
    if exists i :: 0 <= i < |s.memory.profiles| && s.memory.profiles[i].id == runtime.active && Owned(s.memory.profiles[i])
    then None
    else
      match codec.runtimeText(runtime)
      case None => None
      case Some(text) => Some(s.disk[RUNTIME_PATH := File(text)])
  }

  function ProfileDisk(codec: Codec, disk: Disk, id: string, profile: Profile): Option<Disk> {
    match codec.profileText(profile)
    case None => None
    case Some(text) => if codec.parseProfile(text).None? then None else Some(disk[ProfilePath(id) := File(text)])
  }

  /** The last owned profile with that id. */
  function OwnedProfile(profiles: seq<Profile>, id: string): Option<Profile> {
    if profiles == [] then None
    else
      var last := profiles[|profiles| - 1];
      if last.id == id && Owned(last) then Some(last) else OwnedProfile(profiles[..|profiles| - 1], id)
  }

  predicate SameShape(p: Profile, q: Profile) {
    && p.ownerController == q.ownerController && p.ownerInstance == q.ownerInstance && p.schema == q.schema
    && p.name == q.name && p.matchAnyVid == q.matchAnyVid && p.matchAnyPid == q.matchAnyPid && p.matchVid == q.matchVid
    && p.matchPid == q.matchPid && p.protocol == q.protocol
  }

  predicate MaySave(m: Memory, mode: Mode, profile: Profile) {
    match OwnedProfile(m.profiles, profile.id)
    case Some(owned) => !mode.Disabled? && SameShape(profile, owned)
    case None =>
      !Owned(profile) && forall i :: 0 <= i < |m.controllers| ==>
        m.controllers[i].profileId == "" || m.controllers[i].profileId != profile.id
  }

  function SaveProfilePlan(codec: Codec, s: Snapshot, mode: Mode, profile: Profile): Option<Disk> {
    if MaySave(s.memory, mode, profile) then ProfileDisk(codec, s.disk, profile.id, profile) else None
  }

  function EditPlan(codec: Codec, s: Snapshot, mode: Mode, id: string, key: string, value: string): Option<Disk> {
    var i := FindProfile(s.memory.profiles, id);
    if !ValidId(id) || |id| >= ID_MAX || i == |s.memory.profiles| then None
    else if Owned(s.memory.profiles[i]) && mode.Disabled? then None
    else
      match codec.applyKey(s.memory.profiles[i], key, value)
      case None => None
      case Some(edited) => ProfileDisk(codec, s.disk, id, edited)
  }

  function CreatePlan(codec: Codec, s: Snapshot, id: string): Option<Disk> {
    if !ValidId(id) || |id| >= ID_MAX || |s.memory.profiles| >= MAX_PROFILES
       || FindProfile(s.memory.profiles, id) < |s.memory.profiles| then None
    else
      match codec.profileText(codec.newProfile(id))
      case None => None
      case Some(text) => Some(s.disk[ProfilePath(id) := File(text)])
  }

  /** Renaming writes the new file, redirects the active profile if it was the old one, and removes the old file. */
  function RenamePlan(codec: Codec, s: Snapshot, from: string, to: string): Option<Disk> {
    var i := FindProfile(s.memory.profiles, from);
    if !ValidId(from) || !ValidId(to) || |from| >= ID_MAX || |to| >= ID_MAX || from == "default" || SameFold(to, "auto")
       || from == to || i == |s.memory.profiles| || FindProfile(s.memory.profiles, to) < |s.memory.profiles| then None
    else
      var p := s.memory.profiles[i];
      if Owned(p) || TextAt(s.disk, ProfilePath(from)).None? || ProfilePath(to) in s.disk then None
      else
        match codec.profileText(p.(id := to, name := if p.name == from then to else p.name))
        case None => None
        case Some(text) =>
          var disk := s.disk[ProfilePath(to) := File(text)];
          if s.memory.runtime.active != from then Some(disk - {ProfilePath(from)})
          else
            match codec.runtimeText(s.memory.runtime.(active := to))
            case None => None
            case Some(runtime) => Some(disk[RUNTIME_PATH := File(runtime)] - {ProfilePath(from)})
  }

  // ---- guided setup --------------------------------------------------------------------------

  predicate ProfileFits(profiles: seq<Profile>, p: Profile) {
    && (forall i :: 0 <= i < |profiles| ==>
          if profiles[i].id == p.id then
            !Owned(profiles[i]) && MatchesExactIdentity(profiles[i], p.matchVid, p.matchPid, p.protocol)
          else !MatchesExactIdentity(profiles[i], p.matchVid, p.matchPid, p.protocol))
    && (FindProfile(profiles, p.id) == |profiles| ==> |profiles| < MAX_PROFILES)
  }

  predicate SetupRuleFits(rules: seq<Rule>, rule: Rule) {
    var i := FindId(rules, rule.id);
    && Valid(rule) && rule.instanceId == ""
    && (if i < |rules| then rules[i].instanceId == "" && rules[i].vid == rule.vid && rules[i].pid == rule.pid
        else i < MAX_RULES)
    && Storable(Enrol(rules, rule))
  }

  function SetupPlan(codec: Codec, s: Snapshot, p: Profile, rule: Rule): Option<Disk> {
    if Owned(p) || !ProfileFits(s.memory.profiles, p) || !SetupRuleFits(s.memory.controllers, rule) then None
    else
      match codec.profileText(p)
      case None => None
      case Some(profile) =>
        match codec.runtimeText(s.memory.runtime.(active := "auto"))
        case None => None
        case Some(runtime) =>
          Some(s.disk[ProfilePath(p.id) := File(profile)]
               [CONTROLLERS_PATH := File(Text(Enrol(s.memory.controllers, rule)))][RUNTIME_PATH := File(runtime)])
  }

  /** The rule a guided setup keeps: the controller's model rule, or a new one named after the profile. */
  function PreservedRule(rules: seq<Rule>, p: Profile): Rule {
    var i := FindModel(rules, p.matchVid, p.matchPid);
    if i < |rules| then rules[i]
    else Rule(p.id, if p.name != "" then p.name else p.id, 1, 0, p.matchVid, p.matchPid, p.protocol, 0, 0, -1, 0, "", "")
  }

  predicate InstanceRequestValid(draft: Profile, at: Match, controllerId: string, profileId: string) {
    && MatchValid(at) && at.identity.Stable? && ValidId(controllerId) && ValidId(profileId)
    && |controllerId| < ID_MAX && |profileId| < ID_MAX && !Reserved(controllerId) && !Reserved(profileId)
    && (draft.ownerController == "" || draft.ownerController == controllerId)
    && (draft.ownerInstance == "" || draft.ownerInstance == at.instanceId)
    && draft.id == profileId && !draft.matchAnyVid && !draft.matchAnyPid && draft.matchVid == at.vid
    && draft.matchPid == at.pid && SameProtocol(draft.protocol, at.protocol)
  }

  /** The instance rule to bind, its profile id as stored so far. */
  function BoundRule(rules: seq<Rule>, draft: Profile, at: Match, controllerId: string, profileId: string): Option<Rule> {
    var i, model := FindId(rules, controllerId), FindModel(rules, at.vid, at.pid);
    if i < |rules| then
      var r := rules[i];
      if r.instanceId == "" || r.vid != at.vid || r.pid != at.pid || r.instanceId != at.instanceId
         || (r.profileId != "" && r.profileId != profileId) || !Binds(r, at) then None
      else Some(r)
    else if i >= MAX_RULES then None
    else
      var base := if model < |rules| then rules[model]
                  else NewRule(controllerId).(name := draft.name, vid := at.vid, pid := at.pid, protocol := at.protocol);
      var r := base.(id := controllerId, instanceId := at.instanceId, profileId := "");
      if Binds(r, at) then Some(r) else None
  }

  /** The profile to store for it: owned by the rule, and keeping an existing one's name and protocol. */
  function BoundProfile(profiles: seq<Profile>, rule: Rule, draft: Profile, at: Match, profileId: string): Option<Profile> {
    var i := FindProfile(profiles, profileId);
    var owned := draft.(schema := INSTANCE_SCHEMA, ownerController := rule.id, ownerInstance := rule.instanceId);
    if rule.profileId == "" then (if i == |profiles| && i < MAX_PROFILES then Some(owned) else None)
    else if i == |profiles| || profiles[i].ownerController != rule.id || profiles[i].ownerInstance != rule.instanceId
            || profiles[i].matchVid != at.vid || profiles[i].matchPid != at.pid
            || !SameProtocol(profiles[i].protocol, at.protocol) then None
    else Some(owned.(name := profiles[i].name, protocol := profiles[i].protocol))
  }

  datatype Binding = Binding(rule: Rule, profile: Profile, profileText: string)

  function BindingOf(codec: Codec, m: Memory, draft: Profile, at: Match, controllerId: string, profileId: string)
    : Option<Binding>
  {
    if !InstanceRequestValid(draft, at, controllerId, profileId) then None
    else
      match BoundRule(m.controllers, draft, at, controllerId, profileId)
      case None => None
      case Some(found) =>
        match BoundProfile(m.profiles, found, draft, at, profileId)
        case None => None
        case Some(profile) =>
          var rule := found.(profileId := profileId);
          var i := FindProfile(m.profiles, profileId);
          var profiles := if i < |m.profiles| then m.profiles[i := profile] else m.profiles + [profile];
          var rules := Enrol(m.controllers, rule);
          if !AssociationsValid(rules, profiles) || !Storable(rules) then None
          else
            match codec.profileText(profile)
            case None => None
            case Some(text) => if codec.parseProfile(text).None? then None else Some(Binding(rule, profile, text))
  }

  function BindPlan(codec: Codec, s: Snapshot, draft: Profile, at: Match, controllerId: string, profileId: string)
    : Option<Disk>
  {
    match BindingOf(codec, s.memory, draft, at, controllerId, profileId)
    case None => None
    case Some(b) =>
      Some(s.disk[ProfilePath(profileId) := File(b.profileText)]
           [CONTROLLERS_PATH := File(Text(Enrol(s.memory.controllers, b.rule)))])
  }
}
