/** What a mutation of the rules publishes, field by field, and what each operation on profiles does to the files. */
module Mutations {
  import opened Controllers
  import opened ControllersFile
  import opened Profiles
  import opened Store
  import opened StoreRuns
  import opened Wrappers

  /** The published rules differ in rule q alone, the only one under its id. */
  ghost predicate OnlyChanged(a: seq<Rule>, b: seq<Rule>, q: Rule) {
    q in b && forall r :: r in b <==> r == q || (r in a && r.id != q.id)
  }

  ghost predicate StoredAs(rules: seq<Rule>, o: Rule, id: string) { o in rules && o.id == id }

  ghost predicate NotStored(rules: seq<Rule>, id: string) { forall r :: r in rules ==> r.id != id }

  predicate SameScope(o: Rule, q: Rule) { q.instanceId == o.instanceId && q.profileId == o.profileId }

  /** How a rule is told apart from its product's other connections. */
  predicate SameBinding(o: Rule, q: Rule) {
    q.protocol == o.protocol && q.interfaceNumber == o.interfaceNumber && q.inEndpoint == o.inEndpoint && q.outEndpoint == o.outEndpoint
  }

  /** The fields a whole-rule request sets as they are. */
  predicate AsAsked(r: Rule, q: Rule) {
    && q.id == r.id && q.name == r.name && q.enabled == r.enabled && q.ignored == r.ignored && q.vid == r.vid && q.pid == r.pid
    && q.protocol == r.protocol && q.inEndpoint == r.inEndpoint && q.outEndpoint == r.outEndpoint
  }

  predicate OnlyOutputDiffers(o: Rule, q: Rule) {
    && AsAsked(o, q) && SameScope(o, q) && q.interfaceNumber == o.interfaceNumber
  }

  // ---- from the plan to what is published ----------------------------------------------------

  lemma EnrolChanges(rules: seq<Rule>, q: Rule)
    requires Storable(rules)
    ensures OnlyChanged(rules, Enrol(rules, q), q)
  {
    hide Valid;
    var i, b := FindId(rules, q.id), Enrol(rules, q);
    if i < |rules| {
      assert b[i] == q;
      forall r | r in b && r != q ensures r in rules && r.id != q.id {
        var k :| 0 <= k < |b| && b[k] == r;
        assert k != i && rules[k] == r;
      }
      forall r | r in rules && r.id != q.id ensures r in b {
        var k :| 0 <= k < |rules| && rules[k] == r;
        assert b[k] == r;
      }
    } else {
      assert b[|rules|] == q;
      forall r | r in b && r != q ensures r in rules && r.id != q.id {
        var k :| 0 <= k < |b| && b[k] == r;
        assert rules[k] == r;
      }
      forall r | r in rules ensures r in b {
        var k :| 0 <= k < |rules| && rules[k] == r;
        assert b[k] == r;
      }
    }
  }

  /** A committed change of one rule publishes it. */
  lemma RulePublished(codec: Codec, s: Snapshot, t: Snapshot, plan: Option<Rule>)
    requires Sound(s) && Done(codec, s, t, RuleDisk(s.disk, s.memory, plan), true)
    requires plan.Some? ==> Storable(Enrol(s.memory.controllers, plan.value))
    ensures plan.Some? && OnlyChanged(s.memory.controllers, t.memory.controllers, plan.value)
  {
    hide View, RulesOn, Storable, Enrol, Text, Load;
    var rules := Enrol(s.memory.controllers, plan.value);
    LoadSerialize(rules);
    ViewStorable(codec, t.disk);
    assert RulesOn(t.disk) == Some(rules) by { TextOn(t.disk, rules); }
    EnrolChanges(s.memory.controllers, plan.value);
  }

  lemma TextOn(disk: Disk, rules: seq<Rule>)
    requires CONTROLLERS_PATH in disk && disk[CONTROLLERS_PATH] == File(Text(rules)) && Load(Text(rules)) == Some(rules)
    ensures RulesOn(disk) == Some(rules)
  {
    hide Text, Load;
  }

  lemma StoredIs(rules: seq<Rule>, o: Rule, id: string)
    requires Storable(rules) && StoredAs(rules, o, id)
    ensures FindId(rules, id) < |rules| && rules[FindId(rules, id)] == o
  {
    hide Valid;
    var k :| 0 <= k < |rules| && rules[k] == o;
    assert k == FindId(rules, id);
  }

  lemma NoneStored(rules: seq<Rule>, id: string)
    requires NotStored(rules, id)
    ensures FindId(rules, id) == |rules|
  {
  }

  lemma EitherStored(rules: seq<Rule>, id: string)
    ensures NotStored(rules, id) || exists o :: StoredAs(rules, o, id)
  {
    if r :| r in rules && r.id == id {
      assert StoredAs(rules, r, id);
    }
  }

  // ---- instance rules ------------------------------------------------------------------------

  /** What an accepted instance mutation makes of the rule stored under its id. */
  predicate InstanceChanged(o: Rule, n: Intent, q: Rule) {
    && o.instanceId != "" && SameScope(o, q)
    && if n.mode.OutputSet? then OnlyOutputDiffers(o, q) && q.outputType == n.rule.outputType
       else
         && AsAsked(n.rule, q) && q.vid == o.vid && q.pid == o.pid
         && q.outputType == (if n.outputPresent then n.rule.outputType else o.outputType)
         && q.interfaceNumber == (if n.mode.Legacy9? then -1 else n.rule.interfaceNumber)
         && (n.mode.Full? ==> SameScope(n.rule, q)) && (o.profileId != "" ==> SameBinding(o, q))
  }

  lemma MergedIs(o: Rule, n: Intent)
    requires o.id == n.rule.id && Merged(o, n).Some?
    ensures InstanceChanged(o, n, Merged(o, n).value) && Merged(o, n).value.id == o.id
  {
  }

  /** An instance mutation is accepted exactly if the request is valid, instance rules are in use, it fits what is stored
      under its id, or is a new unbound rule for which there is room, and the rules remain storable and in agreement with
      the profiles. */
  lemma InstancePlanIff(m: Memory, mode: Mode, n: Intent)
    requires Storable(m.controllers)
    ensures InstancePlan(m, mode, n).Some? <==> IntentValid(n) && !mode.Disabled? && exists q :: Acceptable(m, n, q)
    ensures forall q :: IntentValid(n) && !mode.Disabled? && Acceptable(m, n, q) ==> InstancePlan(m, mode, n) == Some(q)
  {
    hide Valid, IntentValid, AssociationsValid, Storable, Enrol, OnlyChanged;
    var rules, id := m.controllers, n.rule.id;
    EitherStored(rules, id);
    if o :| StoredAs(rules, o, id) {
      StoredIs(rules, o, id);
      if Merged(o, n).Some? { MergedIs(o, n); }
      assert forall p :: StoredAs(rules, p, id) ==> p == o by {
        forall p | StoredAs(rules, p, id) ensures p == o { StoredIs(rules, p, id); }
      }
      forall q | InstanceChanged(o, n, q) && q.id == id ensures Merged(o, n) == Some(q) { ChangedIs(o, n, q); }
      if InstancePlan(m, mode, n).Some? { assert Acceptable(m, n, Merged(o, n).value); }
    } else {
      NoneStored(rules, id);
      if InstancePlan(m, mode, n).Some? { assert Acceptable(m, n, n.rule); }
    }
  }

  /** The fields say it all. */
  lemma ChangedIs(o: Rule, n: Intent, q: Rule)
    requires InstanceChanged(o, n, q) && q.id == o.id == n.rule.id
    ensures Merged(o, n) == Some(q)
  {
  }

  ghost predicate Acceptable(m: Memory, n: Intent, q: Rule) {
    && (|| (exists o :: StoredAs(m.controllers, o, n.rule.id) && InstanceChanged(o, n, q) && q.id == o.id)
        || (NotStored(m.controllers, n.rule.id) && n.mode.Full? && n.rule.profileId == "" && |m.controllers| < MAX_RULES && q == n.rule))
    && AssociationsValid(Enrol(m.controllers, q), m.profiles) && Storable(Enrol(m.controllers, q))
  }

  /** Main result: a committed instance mutation publishes one rule and leaves all others. Its output type is the requested
      one exactly when the request carries one, and otherwise the stored one; setting the output changes nothing else;
      the oldest form of request makes the interface automatic; every other field is the request's, scope and product
      stay, and so does the binding of a rule with a profile. */
  lemma MutatedInstance(codec: Codec, mode: Mode, s: Snapshot, t: Snapshot, n: Intent) returns (q: Rule)
    requires Sound(s) && OpStep(codec, mode, MutateInstance(n), s, t, true)
    ensures q.id == n.rule.id && OnlyChanged(s.memory.controllers, t.memory.controllers, q)
    ensures forall o :: StoredAs(s.memory.controllers, o, q.id) ==> InstanceChanged(o, n, q)
    ensures NotStored(s.memory.controllers, q.id) ==> n.mode.Full? && q == n.rule && q.profileId == ""
  {
    hide Storable, InstancePlan, Done, InstanceChanged, Enrol, Text, OnlyChanged, Valid, IntentValid, AssociationsValid;
    var plan := InstancePlan(s.memory, mode, n);
    if plan.Some? { InstancePlanLawful(s.memory, mode, n); }
    RulePublished(codec, s, t, plan);
    q := plan.value;
    PlannedInstance(s.memory, mode, n, q);
  }

  lemma PlannedInstance(m: Memory, mode: Mode, n: Intent, q: Rule)
    requires Storable(m.controllers) && InstancePlan(m, mode, n) == Some(q)
    ensures q.id == n.rule.id
    ensures forall o :: StoredAs(m.controllers, o, q.id) ==> InstanceChanged(o, n, q)
    ensures NotStored(m.controllers, q.id) ==> n.mode.Full? && q == n.rule && q.profileId == ""
  {
    hide Storable, Valid, IntentValid, AssociationsValid, InstanceChanged, Enrol;
    forall o | StoredAs(m.controllers, o, n.rule.id) ensures InstanceChanged(o, n, q) && q.id == n.rule.id {
      StoredIs(m.controllers, o, n.rule.id);
      MergedIs(o, n);
    }
    EitherStored(m.controllers, n.rule.id);
    if NotStored(m.controllers, n.rule.id) { NoneStored(m.controllers, n.rule.id); }
  }

  // ---- whole-rule saves ----------------------------------------------------------------------

  /** What a save of a whole rule makes of what is stored under its id. */
  predicate SavedOver(o: Rule, rule: Rule, preserve: bool, q: Rule) {
    && AsAsked(rule, q) && q.interfaceNumber == rule.interfaceNumber && SameScope(o, q) && q.vid == o.vid && q.pid == o.pid
    && q.outputType == (if preserve then o.outputType else rule.outputType)
    && (o.profileId != "" ==> SameBinding(o, q)) && (rule.instanceId != "" ==> SameScope(rule, q))
  }

  lemma PlannedSave(m: Memory, mode: Mode, rule: Rule, preserve: bool, q: Rule)
    requires Storable(m.controllers) && SavePlan(m, mode, rule, preserve) == Some(q)
    ensures q.id == rule.id
    ensures forall o :: StoredAs(m.controllers, o, q.id) ==> SavedOver(o, rule, preserve, q)
    ensures NotStored(m.controllers, q.id) ==> q == rule && q.profileId == ""
  {
    hide Storable, IntentValid, AssociationsValid, InstancePlan, Enrol, ValidId, ValidInstance, ValidName, ValidIn, ValidOut, ValidProtocol;
    var i := FindId(m.controllers, rule.id);
    EitherStored(m.controllers, rule.id);
    if NotStored(m.controllers, rule.id) { NoneStored(m.controllers, rule.id); }
    if rule.instanceId != "" || (i < |m.controllers| && m.controllers[i].instanceId != "") {
      PlannedInstance(m, mode, SaveIntent(m, rule, preserve), q);
      forall o | StoredAs(m.controllers, o, rule.id) ensures SavedOver(o, rule, preserve, q) { StoredIs(m.controllers, o, rule.id); }
    } else {
      forall o | StoredAs(m.controllers, o, rule.id) ensures SavedOver(o, rule, preserve, q) {
        StoredIs(m.controllers, o, rule.id);
        ModelUnbound(m.controllers, o);
      }
    }
  }

  lemma ModelUnbound(rules: seq<Rule>, o: Rule)
    requires Storable(rules) && o in rules && o.instanceId == ""
    ensures o.profileId == ""
  {
    var k :| 0 <= k < |rules| && rules[k] == o;
    assert Valid(rules[k]);
  }

  /** A committed save publishes the rule as asked, but for the scope of what is stored, and its output type if that is to
      be preserved. */
  lemma SavedRule(codec: Codec, mode: Mode, s: Snapshot, t: Snapshot, rule: Rule, preserve: bool) returns (q: Rule)
    requires Sound(s) && OpStep(codec, mode, SaveController(rule, preserve), s, t, true)
    ensures q.id == rule.id && OnlyChanged(s.memory.controllers, t.memory.controllers, q)
    ensures forall o :: StoredAs(s.memory.controllers, o, q.id) ==> SavedOver(o, rule, preserve, q)
    ensures NotStored(s.memory.controllers, q.id) ==> q == rule && q.profileId == ""
  {
    hide Storable, SavePlan, Done, SavedOver, Enrol, Text, OnlyChanged, Valid;
    var plan := SavePlan(s.memory, mode, rule, preserve);
    if plan.Some? { SavePlanLawful(s.memory, mode, rule, preserve); }
    RulePublished(codec, s, t, plan);
    q := plan.value;
    PlannedSave(s.memory, mode, rule, preserve, q);
  }

  /** Setting a controller's output changes that field of its stored rule and nothing else. */
  lemma OutputChanged(codec: Codec, mode: Mode, s: Snapshot, t: Snapshot, id: string, outputType: int) returns (o: Rule, q: Rule)
    requires Sound(s) && OpStep(codec, mode, SetControllerOutput(id, outputType), s, t, true)
    ensures StoredAs(s.memory.controllers, o, id) && OnlyChanged(s.memory.controllers, t.memory.controllers, q)
    ensures OnlyOutputDiffers(o, q) && q.outputType == outputType
  {
    hide Storable, OutputPlan, Done, Enrol, Text, OnlyChanged, Valid;
    var plan := OutputPlan(s.memory, mode, id, outputType);
    if plan.Some? { OutputPlanLawful(s.memory, mode, id, outputType); }
    RulePublished(codec, s, t, plan);
    q := plan.value;
    o := PlannedOutput(s.memory, mode, id, outputType, q);
  }

  lemma PlannedOutput(m: Memory, mode: Mode, id: string, outputType: int, q: Rule) returns (o: Rule)
    requires Storable(m.controllers) && OutputPlan(m, mode, id, outputType) == Some(q)
    ensures StoredAs(m.controllers, o, id) && OnlyOutputDiffers(o, q) && q.outputType == outputType
  {
    hide Storable, InstancePlan, SavePlan, Enrol, ValidId;
    var i := FindId(m.controllers, id);
    o := m.controllers[i];
    assert StoredAs(m.controllers, o, id);
    if o.instanceId != "" {
      PlannedInstance(m, mode, Intent(OutputSet, true, BlankRule(id).(outputType := outputType)), q);
    } else {
      PlannedSave(m, mode, o.(outputType := outputType), false, q);
    }
  }

  // ---- requests of older clients -------------------------------------------------------------

  /** What an older client's request makes of a model rule stored under its id. */
  predicate ModelChanged(o: Rule, n: Intent, q: Rule) {
    && o.instanceId == "" && SameScope(o, q)
    && if n.mode.OutputSet? then OnlyOutputDiffers(o, q) && q.outputType == n.rule.outputType
       else
         && AsAsked(n.rule, q) && q.vid == o.vid && q.pid == o.pid
         && q.outputType == (if n.outputPresent then n.rule.outputType else o.outputType)
         && q.interfaceNumber == (if n.mode.Legacy9? then -1 else n.rule.interfaceNumber)
  }

  predicate NewModel(n: Intent, q: Rule) {
    && AsAsked(n.rule, q) && q.instanceId == "" && q.profileId == "" && q.outputType == n.rule.outputType && !n.mode.OutputSet?
    && q.interfaceNumber == (if n.mode.Legacy9? then -1 else n.rule.interfaceNumber)
  }

  lemma PlannedCompat(m: Memory, mode: Mode, n: Intent, q: Rule)
    requires Storable(m.controllers) && CompatPlan(m, mode, n) == Some(q)
    ensures q.id == n.rule.id && !n.mode.Full?
    ensures forall o :: StoredAs(m.controllers, o, q.id) ==>
      if o.instanceId != "" then InstanceChanged(o, n, q) else ModelChanged(o, n, q)
    ensures NotStored(m.controllers, q.id) ==> NewModel(n, q)
  {
    hide Storable, AssociationsValid, InstancePlan, Enrol, ValidId, Valid, InstanceChanged;
    var i := FindId(m.controllers, n.rule.id);
    EitherStored(m.controllers, n.rule.id);
    if NotStored(m.controllers, n.rule.id) { NoneStored(m.controllers, n.rule.id); }
    if i < |m.controllers| && m.controllers[i].instanceId != "" {
      PlannedInstance(m, mode, n, q);
      forall o | StoredAs(m.controllers, o, n.rule.id) ensures o.instanceId != "" { StoredIs(m.controllers, o, n.rule.id); }
    } else {
      forall o | StoredAs(m.controllers, o, n.rule.id) ensures o.instanceId == "" && ModelChanged(o, n, q) {
        StoredIs(m.controllers, o, n.rule.id);
        ModelUnbound(m.controllers, o);
      }
    }
  }

  /** A committed request of an older client changes the rule of the scope that is stored under its id, or adds a model
      rule. */
  lemma MutatedCompat(codec: Codec, mode: Mode, s: Snapshot, t: Snapshot, n: Intent) returns (q: Rule)
    requires Sound(s) && OpStep(codec, mode, MutateCompat(n), s, t, true)
    ensures q.id == n.rule.id && OnlyChanged(s.memory.controllers, t.memory.controllers, q)
    ensures forall o :: StoredAs(s.memory.controllers, o, q.id) ==>
      if o.instanceId != "" then InstanceChanged(o, n, q) else ModelChanged(o, n, q)
    ensures NotStored(s.memory.controllers, q.id) ==> NewModel(n, q)
  {
    hide Storable, CompatPlan, Done, InstanceChanged, ModelChanged, NewModel, Enrol, Text, OnlyChanged, Valid;
    var plan := CompatPlan(s.memory, mode, n);
    if plan.Some? { CompatPlanLawful(s.memory, mode, n); }
    RulePublished(codec, s, t, plan);
    q := plan.value;
    PlannedCompat(s.memory, mode, n, q);
  }
}
