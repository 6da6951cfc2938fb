/** What holds over every run of the configuration store's operations, with any pattern of failures and quarantines
    and no edits of the files from outside. */
module StoreRuns {
  import opened Controllers
  import opened ControllersFile
  import opened Profiles
  import opened Store
  import opened Wrappers

  datatype Op =
    | SaveRuntime(runtime: Runtime)
    | SaveProfile(profile: Profile)
    | EditProfile(id: string, key: string, value: string)
    | CreateProfile(id: string)
    | RenameProfile(id: string, to: string)
    | SaveController(rule: Rule, preserve: bool)
    | SetControllerOutput(id: string, outputType: int)
    | MutateInstance(intent: Intent)
    | MutateCompat(intent: Intent)
    | SaveSetup(profile: Profile, rule: Rule)
    | SaveSetupPreserving(profile: Profile)
    | SaveSetupForController(profile: Profile, at: Match, id: string, profileId: string)
    | Reload

  function Plan(codec: Codec, mode: Mode, s: Snapshot, op: Op): Option<Disk> {
    var m := s.memory;
    match op
    case SaveRuntime(runtime) => RuntimePlan(codec, s, runtime)
    case SaveProfile(profile) => SaveProfilePlan(codec, s, mode, profile)
    case EditProfile(id, key, value) => EditPlan(codec, s, mode, id, key, value)
    case CreateProfile(id) => CreatePlan(codec, s, id)
    case RenameProfile(id, to) => RenamePlan(codec, s, id, to)
    case SaveController(rule, preserve) => RuleDisk(s.disk, m, SavePlan(m, mode, rule, preserve))
    case SetControllerOutput(id, outputType) => RuleDisk(s.disk, m, OutputPlan(m, mode, id, outputType))
    case MutateInstance(intent) => RuleDisk(s.disk, m, InstancePlan(m, mode, intent))
    case MutateCompat(intent) => RuleDisk(s.disk, m, CompatPlan(m, mode, intent))
    case SaveSetup(profile, rule) => SetupPlan(codec, s, profile, rule)
    case SaveSetupPreserving(profile) => PreservingPlan(codec, s, profile)
    case SaveSetupForController(profile, at, id, profileId) =>
      if mode.Live? then BindPlan(codec, s, profile, at, id, profileId) else None
    case Reload => None
  }

  function PreservingPlan(codec: Codec, s: Snapshot, profile: Profile): Option<Disk> {
    if profile.matchAnyVid || profile.matchAnyPid || profile.matchVid == 0 then None
    else SetupPlan(codec, s, profile, PreservedRule(s.memory.controllers, profile))
  }

  /** A creation that fails after its write removes the file it wrote, also when something was there before. The write
      replaces neither links nor folders. */
  ghost predicate CreateDone(codec: Codec, s: Snapshot, t: Snapshot, plan: Option<Disk>, path: string, committed: bool) {
    || Done(codec, s, t, plan, committed)
    || (&& plan.Some? && Authorised(s) && (path in s.disk ==> Occupied(s.disk, path)) && !committed
        && t == s.(disk := s.disk - {path}))
  }

  /** One operation, ended in one of its possible ways. */
  ghost predicate OpStep(codec: Codec, mode: Mode, op: Op, s: Snapshot, t: Snapshot, committed: bool) {
    match op
    case Reload => Reloaded(codec, s, t, committed)
    case CreateProfile(id) => CreateDone(codec, s, t, Plan(codec, mode, s, op), ProfilePath(id), committed)
    case _ => Done(codec, s, t, Plan(codec, mode, s, op), committed)
  }

  /** Whatever goes wrong, a creation that ends without commit and without quarantine leaves the disk as it was. */
  ghost predicate CreateRollsBack(codec: Codec, mode: Mode, s: Snapshot, id: string) {
    forall t :: OpStep(codec, mode, CreateProfile(id), s, t, false) && t.valid ==> t.disk == s.disk
  }

  /** The exact condition, which a caller can check before: the creation is refused at once, or nothing that the write
      would replace is in the profile's place. */
  lemma CreateRollsBackIff(codec: Codec, mode: Mode, s: Snapshot, id: string)
    ensures CreateRollsBack(codec, mode, s, id)
       <==> CreatePlan(codec, s, id).None? || !Authorised(s) || !Occupied(s.disk, ProfilePath(id))
  {
    hide CreatePlan, ProfilePath;
    var path := ProfilePath(id);
    var t := s.(disk := s.disk - {path});
    if CreatePlan(codec, s, id).Some? && Authorised(s) && Occupied(s.disk, path) {
      assert OpStep(codec, mode, CreateProfile(id), s, t, false) && t.valid;
      assert path in s.disk && path !in t.disk;
    } else if path !in s.disk {
      assert t.disk == s.disk;
    }
  }

  /** The failing case: something the write replaces is there but not published, the reload after the write fails, and
      it is gone. */
  lemma CreateCanLose(mode: Mode, node: Node) returns (codec: Codec, s: Snapshot, t: Snapshot)
    requires node.File? || node.Device?
    ensures Sound(s) && OpStep(codec, mode, CreateProfile("pad"), s, t, false) && t.valid && t.memory == s.memory
    ensures s.disk == map[ProfilePath("pad") := node] && t.disk == map[]
  {
    var blank := Profile(1, "pad", "pad", true, true, true, 0, 0, "any", "", "", 0);
    codec := Codec(_ => None, _ => None, _ => Some("new"), _ => None, _ => None, (_, _, _) => None, _ => blank);
    s := Snapshot(map[ProfilePath("pad") := node], Memory(Runtime("auto", 0), [], []), 1, true, false);
    t := s.(disk := s.disk - {ProfilePath("pad")});
    assert ValidId("pad");
    assert CreatePlan(codec, s, "pad").Some?;
    assert t.disk == map[];
  }

  // ---- one step ------------------------------------------------------------------------------

  /** The generation never falls or wraps, and while it stands still so does everything published. */
  lemma GenerationAdvances(codec: Codec, mode: Mode, op: Op, s: Snapshot, t: Snapshot, committed: bool)
    requires Sound(s) && OpStep(codec, mode, op, s, t, committed)
    ensures Sound(t) && s.generation <= t.generation <= s.generation + 1
    ensures t.generation == s.generation ==> t.memory == s.memory
    ensures committed <==> t.generation == s.generation + 1 && t.valid
    ensures s.exhausted ==> t.exhausted && t.memory == s.memory
  {
    hide View, RulesOn, Storable, Plan;
    if committed {
      ViewStorable(codec, t.disk);
    }
  }

  lemma ViewStorable(codec: Codec, disk: Disk)
    ensures View(codec, disk).Some? ==> Storable(View(codec, disk).value.controllers)
    ensures View(codec, disk).Some? ==> RulesOn(disk) == Some(View(codec, disk).value.controllers)
  {
    hide Storable, Load, AssociationsValid;
    if View(codec, disk).Some? { LoadStorable(TextAt(disk, CONTROLLERS_PATH).value); }
  }

  /** A quarantined store changes nothing until a reload succeeds. */
  lemma QuarantineHolds(codec: Codec, mode: Mode, op: Op, s: Snapshot, t: Snapshot, committed: bool)
    requires OpStep(codec, mode, op, s, t, committed) && !Authorised(s) && !(op.Reload? && committed)
    ensures t.memory == s.memory && t.disk == s.disk && !Authorised(t)
  {
  }

  // ---- rules ---------------------------------------------------------------------------------

  /** The same rule later on: scope, controller and instance kept, the profile bound at most once, and with it the
      connection it binds to. */
  predicate Evolved(r: Rule, q: Rule) {
    && q.id == r.id && q.vid == r.vid && q.pid == r.pid && q.instanceId == r.instanceId
    && (r.profileId != "" ==>
          && q.profileId == r.profileId && q.protocol == r.protocol && q.interfaceNumber == r.interfaceNumber
          && q.inEndpoint == r.inEndpoint && q.outEndpoint == r.outEndpoint)
  }

  /** One rule replaced by an evolved form of itself, or one appended; the others as they were. */
  predicate OneRule(a: seq<Rule>, b: seq<Rule>) {
    || (|b| == |a| + 1 && b[..|a|] == a)
    || (|b| == |a| && exists k :: 0 <= k < |a| && b == a[k := b[k]] && Evolved(a[k], b[k]))
  }

  predicate Continues(a: seq<Rule>, b: seq<Rule>) {
    |a| <= |b| && forall i :: 0 <= i < |a| ==> Evolved(a[i], b[i])
  }

  lemma OneRuleContinues(a: seq<Rule>, b: seq<Rule>)
    requires OneRule(a, b)
    ensures Continues(a, b)
  {
  }

  lemma ContinuesTransitive(a: seq<Rule>, b: seq<Rule>, c: seq<Rule>)
    requires Continues(a, b) && Continues(b, c)
    ensures Continues(a, c)
  {
    forall i | 0 <= i < |a| ensures Evolved(a[i], c[i]) {
      assert Evolved(a[i], b[i]) && Evolved(b[i], c[i]);
    }
  }

  lemma EnrolOne(rules: seq<Rule>, rule: Rule)
    requires var i := FindId(rules, rule.id); i < |rules| ==> Evolved(rules[i], rule)
    ensures OneRule(rules, Enrol(rules, rule))
  {
    var i := FindId(rules, rule.id);
    var b := Enrol(rules, rule);
    if i < |rules| { assert b == rules[i := b[i]] && Evolved(rules[i], b[i]); }
  }

  /** What a plan may do to the rules' file: nothing, or the text of storable rules that differ in one rule. */
  ghost predicate Lawful(s: Snapshot, disk: Disk) {
    || Held(disk, CONTROLLERS_PATH) == Held(s.disk, CONTROLLERS_PATH)
    || exists rule: Rule :: LawfulRule(s, disk, rule)
  }

  ghost predicate LawfulRule(s: Snapshot, disk: Disk, rule: Rule) {
    var rules := Enrol(s.memory.controllers, rule);
    && Held(disk, CONTROLLERS_PATH) == Some(File(Text(rules)))
    && Storable(rules) && OneRule(s.memory.controllers, rules)
  }

  lemma MergedEvolves(r: Rule, n: Intent)
    requires Merged(r, n).Some? && n.rule.id == r.id
    ensures Evolved(r, Merged(r, n).value)
  {
  }

  lemma InstancePlanLawful(m: Memory, mode: Mode, n: Intent)
    requires InstancePlan(m, mode, n).Some?
    ensures var rules := Enrol(m.controllers, InstancePlan(m, mode, n).value); Storable(rules) && OneRule(m.controllers, rules)
  {
    hide Storable, AssociationsValid, Enrol, OneRule, IntentValid, Merged;
    var i := FindId(m.controllers, n.rule.id);
    var rule := InstancePlan(m, mode, n).value;
    if i < |m.controllers| { MergedEvolves(m.controllers[i], n); }
    EnrolOne(m.controllers, rule);
  }

  lemma ModelPlanLawful(m: Memory, rule: Rule, preserve: bool)
    requires ModelPlan(m, rule, preserve).Some? && rule.instanceId == "" && rule.profileId == ""
    requires forall i :: 0 <= i < |m.controllers| && m.controllers[i].id == rule.id ==>
      m.controllers[i].instanceId == "" && m.controllers[i].profileId == ""
    ensures var rules := Enrol(m.controllers, ModelPlan(m, rule, preserve).value); Storable(rules) && OneRule(m.controllers, rules)
  {
    hide Storable, Enrol, OneRule;
    EnrolOne(m.controllers, ModelPlan(m, rule, preserve).value);
  }

  lemma ModelIds(rules: seq<Rule>, id: string)
    requires Storable(rules) && (FindId(rules, id) < |rules| ==> rules[FindId(rules, id)].instanceId == "")
    ensures forall i :: 0 <= i < |rules| && rules[i].id == id ==> rules[i].instanceId == "" && rules[i].profileId == ""
  {
    forall i | 0 <= i < |rules| && rules[i].id == id ensures rules[i].instanceId == "" && rules[i].profileId == "" {
      assert i == FindId(rules, id);
      assert Valid(rules[i]);
    }
  }

  lemma SavePlanLawful(m: Memory, mode: Mode, rule: Rule, preserve: bool)
    requires Storable(m.controllers) && SavePlan(m, mode, rule, preserve).Some?
    ensures var rules := Enrol(m.controllers, SavePlan(m, mode, rule, preserve).value); Storable(rules) && OneRule(m.controllers, rules)
  {
    hide Storable, Enrol, OneRule, InstancePlan, ModelPlan, SaveIntent;
    var i := FindId(m.controllers, rule.id);
    if rule.instanceId != "" || (i < |m.controllers| && m.controllers[i].instanceId != "") {
      InstancePlanLawful(m, mode, SaveIntent(m, rule, preserve));
    } else {
      ModelIds(m.controllers, rule.id);
      ModelPlanLawful(m, rule, preserve);
    }
  }

  lemma OutputPlanLawful(m: Memory, mode: Mode, id: string, outputType: int)
    requires Storable(m.controllers) && OutputPlan(m, mode, id, outputType).Some?
    ensures var rules := Enrol(m.controllers, OutputPlan(m, mode, id, outputType).value); Storable(rules) && OneRule(m.controllers, rules)
  {
    hide Storable, Enrol, OneRule, InstancePlan, SavePlan, ValidId;
    var i := FindId(m.controllers, id);
    if m.controllers[i].instanceId != "" {
      InstancePlanLawful(m, mode, Intent(OutputSet, true, BlankRule(id).(outputType := outputType)));
    } else {
      SavePlanLawful(m, mode, m.controllers[i].(outputType := outputType), false);
    }
  }

  lemma CompatPlanLawful(m: Memory, mode: Mode, n: Intent)
    requires Storable(m.controllers) && CompatPlan(m, mode, n).Some?
    ensures var rules := Enrol(m.controllers, CompatPlan(m, mode, n).value); Storable(rules) && OneRule(m.controllers, rules)
  {
    hide Storable, Enrol, OneRule, InstancePlan, ModelPlan, ValidId, Valid;
    var i := FindId(m.controllers, n.rule.id);
    if i < |m.controllers| && m.controllers[i].instanceId != "" {
      InstancePlanLawful(m, mode, n);
    } else {
      ModelIds(m.controllers, n.rule.id);
      var merged := if n.mode.OutputSet? then m.controllers[i].(outputType := n.rule.outputType)
                    else if n.mode.Legacy9? then n.rule.(interfaceNumber := -1) else n.rule;
      ModelPlanLawful(m, merged, n.mode.Legacy9? || n.mode.Legacy10?);
    }
  }

  lemma SetupPlanLawful(codec: Codec, s: Snapshot, p: Profile, rule: Rule)
    requires Storable(s.memory.controllers) && SetupPlan(codec, s, p, rule).Some?
    ensures Lawful(s, SetupPlan(codec, s, p, rule).value)
  {
    hide Storable, Enrol, OneRule, ProfileFits, ProfilePath;
    var rules := s.memory.controllers;
    PathsDistinct(p.id, p.id);
    ModelIds(rules, rule.id);
    assert rule.profileId == "";
    EnrolOne(rules, rule);
    assert LawfulRule(s, SetupPlan(codec, s, p, rule).value, rule);
  }

  lemma BindPlanLawful(codec: Codec, s: Snapshot, draft: Profile, at: Match, id: string, profileId: string)
    requires Storable(s.memory.controllers) && BindPlan(codec, s, draft, at, id, profileId).Some?
    ensures Lawful(s, BindPlan(codec, s, draft, at, id, profileId).value)
  {
    hide Storable, Enrol, OneRule, BindingOf, ProfilePath;
    var rules, b := s.memory.controllers, BindingOf(codec, s.memory, draft, at, id, profileId).value;
    PathsDistinct(profileId, profileId);
    BindingLawful(codec, s.memory, draft, at, id, profileId);
    EnrolOne(rules, b.rule);
    assert LawfulRule(s, BindPlan(codec, s, draft, at, id, profileId).value, b.rule);
  }

  lemma BindingLawful(codec: Codec, m: Memory, draft: Profile, at: Match, id: string, profileId: string)
    requires BindingOf(codec, m, draft, at, id, profileId).Some?
    ensures var rule, i := BindingOf(codec, m, draft, at, id, profileId).value.rule, FindId(m.controllers, id);
      && rule.id == id && (i < |m.controllers| ==> Evolved(m.controllers[i], rule)) && Storable(Enrol(m.controllers, rule))
  {
    hide Storable, Enrol, AssociationsValid, Binds, BoundProfile, InstanceRequestValid;
  }

  /** Every operation's plan is lawful. */
  lemma PlanLawful(codec: Codec, mode: Mode, s: Snapshot, op: Op)
    requires Storable(s.memory.controllers) && Plan(codec, mode, s, op).Some?
    ensures Lawful(s, Plan(codec, mode, s, op).value)
  {
    hide Storable, Enrol, OneRule, InstancePlan, ModelPlan, SavePlan, OutputPlan, CompatPlan, SetupPlan, BindPlan,
         ProfilePath, MaySave, ValidId, PreservedRule;
    var m := s.memory;
    match op {
      case SaveController(rule, preserve) =>
        SavePlanLawful(m, mode, rule, preserve);
        RuleDiskLawful(s, SavePlan(m, mode, rule, preserve).value);
      case SetControllerOutput(id, outputType) =>
        OutputPlanLawful(m, mode, id, outputType);
        RuleDiskLawful(s, OutputPlan(m, mode, id, outputType).value);
      case MutateInstance(intent) =>
        InstancePlanLawful(m, mode, intent);
        RuleDiskLawful(s, InstancePlan(m, mode, intent).value);
      case MutateCompat(intent) =>
        CompatPlanLawful(m, mode, intent);
        RuleDiskLawful(s, CompatPlan(m, mode, intent).value);
      case SaveSetup(profile, rule) => SetupPlanLawful(codec, s, profile, rule);
      case SaveSetupPreserving(profile) => SetupPlanLawful(codec, s, profile, PreservedRule(m.controllers, profile));
      case SaveSetupForController(profile, at, id, profileId) => BindPlanLawful(codec, s, profile, at, id, profileId);
      case SaveRuntime(_) => PathsDistinct("", "");
      case SaveProfile(profile) => PathsDistinct(profile.id, profile.id);
      case EditProfile(id, _, _) => PathsDistinct(id, id);
      case CreateProfile(id) => PathsDistinct(id, id);
      case RenameProfile(id, to) => PathsDistinct(id, to); PathsDistinct(to, id);
    }
  }

  lemma RuleDiskLawful(s: Snapshot, rule: Rule)
    requires var rules := Enrol(s.memory.controllers, rule); Storable(rules) && OneRule(s.memory.controllers, rules)
    ensures Lawful(s, RuleDisk(s.disk, s.memory, Some(rule)).value)
  {
    assert LawfulRule(s, RuleDisk(s.disk, s.memory, Some(rule)).value, rule);
  }

  // ---- runs ----------------------------------------------------------------------------------

  /** The rules' file is readable and continues the published rules; while the policy is valid it holds exactly
      those. */
  ghost predicate Tracked(s: Snapshot) {
    && Sound(s) && RulesOn(s.disk).Some? && Continues(s.memory.controllers, RulesOn(s.disk).value)
    && (s.valid ==> RulesOn(s.disk).value == s.memory.controllers)
  }

  lemma HeldRules(a: Disk, b: Disk)
    requires Held(a, CONTROLLERS_PATH) == Held(b, CONTROLLERS_PATH)
    ensures RulesOn(a) == RulesOn(b)
  {
  }

  lemma LawfulRules(s: Snapshot, disk: Disk)
    requires Tracked(s) && s.valid && Lawful(s, disk)
    ensures RulesOn(disk).Some? && (RulesOn(disk).value == s.memory.controllers || OneRule(s.memory.controllers, RulesOn(disk).value))
  {
    hide Load, Text, Storable, OneRule, Enrol;
    if Held(disk, CONTROLLERS_PATH) == Held(s.disk, CONTROLLERS_PATH) {
      HeldRules(disk, s.disk);
    } else {
      var rule: Rule :| LawfulRule(s, disk, rule);
      LoadSerialize(Enrol(s.memory.controllers, rule));
    }
  }

  /** A committed mutation changes at most one rule, and every ending continues the rules. */
  lemma StepTracked(codec: Codec, mode: Mode, op: Op, s: Snapshot, t: Snapshot, committed: bool)
    requires Tracked(s) && OpStep(codec, mode, op, s, t, committed)
    ensures Tracked(t) && Continues(s.memory.controllers, t.memory.controllers)
    ensures !op.Reload? ==> t.memory.controllers == s.memory.controllers || OneRule(s.memory.controllers, t.memory.controllers)
  {
    hide View, RulesOn, Storable, Plan, Lawful, OneRule, Evolved, Continues;
    GenerationAdvances(codec, mode, op, s, t, committed);
    ContinuesSelf(s.memory.controllers);
    ContinuesSelf(t.memory.controllers);
    if op.Reload? {
      if committed { ViewStorable(codec, t.disk); }
    } else if t != s {
      PlanLawful(codec, mode, s, op);
      MutationTracked(codec, mode, op, s, t, committed, Plan(codec, mode, s, op).value);
    }
  }

  lemma ContinuesSelf(a: seq<Rule>)
    ensures Continues(a, a)
  {
  }

  lemma MutationTracked(codec: Codec, mode: Mode, op: Op, s: Snapshot, t: Snapshot, committed: bool, disk: Disk)
    requires Tracked(s) && OpStep(codec, mode, op, s, t, committed) && !op.Reload? && t != s && Sound(t)
    requires Plan(codec, mode, s, op) == Some(disk) && Lawful(s, disk)
    ensures RulesOn(t.disk).Some? && Continues(t.memory.controllers, RulesOn(t.disk).value)
    ensures t.valid ==> RulesOn(t.disk).value == t.memory.controllers
    ensures t.memory.controllers == s.memory.controllers || OneRule(s.memory.controllers, t.memory.controllers)
    ensures Continues(s.memory.controllers, t.memory.controllers)
  {
    hide View, RulesOn, Storable, Plan, Lawful, OneRule, Evolved, Continues;
    var a := s.memory.controllers;
    ContinuesSelf(a);
    LawfulRules(s, disk);
    var b := RulesOn(disk).value;
    if b != a { OneRuleContinues(a, b); }
    ContinuesSelf(b);
    if committed {
      ViewStorable(codec, t.disk);
    } else if Quarantined(s, t, disk) {
      assert Held(t.disk, CONTROLLERS_PATH) == Held(s.disk, CONTROLLERS_PATH)
          || Held(t.disk, CONTROLLERS_PATH) == Held(disk, CONTROLLERS_PATH);
      if Held(t.disk, CONTROLLERS_PATH) == Held(s.disk, CONTROLLERS_PATH) {
        HeldRules(t.disk, s.disk);
      } else {
        HeldRules(t.disk, disk);
      }
    } else {
      assert op.CreateProfile?;
      PathsDistinct(op.id, op.id);
      HeldRules(t.disk, s.disk);
    }
  }

  /** A run: snapshots, the operations between them and whether each committed. */
  ghost predicate IsRun(codec: Codec, mode: Mode, states: seq<Snapshot>, ops: seq<Op>, done: seq<bool>) {
    && |states| == |ops| + 1 == |done| + 1 && Tracked(states[0])
    && forall i :: 0 <= i < |ops| ==> OpStep(codec, mode, ops[i], states[i], states[i + 1], done[i])
  }

  lemma {:induction false} RunTracked(codec: Codec, mode: Mode, states: seq<Snapshot>, ops: seq<Op>, done: seq<bool>, i: nat, j: nat)
    requires IsRun(codec, mode, states, ops, done) && i <= j < |states|
    ensures Tracked(states[j]) && Continues(states[i].memory.controllers, states[j].memory.controllers)
    ensures states[i].generation <= states[j].generation <= UINT64_MAX
    decreases j
  {
    hide Tracked, OpStep, Continues;
    if j == 0 {
      ContinuesSelf(states[0].memory.controllers);
      TrackedSound(states[0]);
    } else {
      RunTracked(codec, mode, states, ops, done, if i < j then i else j - 1, j - 1);
      TrackedSound(states[j - 1]);
      StepTracked(codec, mode, ops[j - 1], states[j - 1], states[j], done[j - 1]);
      GenerationAdvances(codec, mode, ops[j - 1], states[j - 1], states[j], done[j - 1]);
      ContinuesSelf(states[j].memory.controllers);
      if i < j {
        ContinuesTransitive(states[i].memory.controllers, states[j - 1].memory.controllers, states[j].memory.controllers);
      }
    }
  }

  lemma TrackedSound(s: Snapshot)
    requires Tracked(s)
    ensures Sound(s) && Storable(s.memory.controllers)
  {
  }

  /** Main result: a rule id, once published, names the same controller and scope for ever, and its profile is bound
      at most once, from when on its protocol, interface and endpoints stay as well. It holds across failed mutations, quarantine and reload. */
  lemma RuleIdentity(codec: Codec, mode: Mode, states: seq<Snapshot>, ops: seq<Op>, done: seq<bool>, i: nat, j: nat,
                     r: Rule, q: Rule)
    requires IsRun(codec, mode, states, ops, done) && i <= j < |states|
    requires r in states[i].memory.controllers && q in states[j].memory.controllers && r.id == q.id
    ensures q.vid == r.vid && q.pid == r.pid && q.instanceId == r.instanceId
    ensures r.profileId != "" ==>
      && q.profileId == r.profileId && q.protocol == r.protocol && q.interfaceNumber == r.interfaceNumber
      && q.inEndpoint == r.inEndpoint && q.outEndpoint == r.outEndpoint
  {
    hide IsRun, Valid;
    RunTracked(codec, mode, states, ops, done, i, j);
    var a, b := states[i].memory.controllers, states[j].memory.controllers;
    var k :| 0 <= k < |a| && a[k] == r;
    var l :| 0 <= l < |b| && b[l] == q;
    assert Evolved(a[k], b[k]);
    TrackedSound(states[j]);
    assert k == l;
  }

  /** No rule is ever lost. */
  lemma RulesRemain(codec: Codec, mode: Mode, states: seq<Snapshot>, ops: seq<Op>, done: seq<bool>, i: nat, j: nat, r: Rule)
    requires IsRun(codec, mode, states, ops, done) && i <= j < |states| && r in states[i].memory.controllers
    ensures exists q :: q in states[j].memory.controllers && q.id == r.id
  {
    hide IsRun, Tracked;
    RunTracked(codec, mode, states, ops, done, i, j);
    var a, b := states[i].memory.controllers, states[j].memory.controllers;
    var k :| 0 <= k < |a| && a[k] == r;
    assert Evolved(a[k], b[k]) && b[k] in b;
  }

  /** From a quarantine to the next successful reload nothing published changes and no file is written. */
  lemma {:induction false} QuarantineLasts(codec: Codec, mode: Mode, states: seq<Snapshot>, ops: seq<Op>, done: seq<bool>, i: nat, j: nat)
    requires IsRun(codec, mode, states, ops, done) && i <= j < |states| && !Authorised(states[i])
    requires forall k :: i <= k < j ==> !(ops[k].Reload? && done[k])
    ensures !Authorised(states[j]) && states[j].memory == states[i].memory && states[j].disk == states[i].disk
    decreases j
  {
    hide Tracked, OpStep, Authorised;
    if i < j {
      QuarantineLasts(codec, mode, states, ops, done, i, j - 1);
      QuarantineHolds(codec, mode, ops[j - 1], states[j - 1], states[j], done[j - 1]);
    }
  }
}
