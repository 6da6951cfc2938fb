/** What each operation on profiles, runtime settings and setups does to the files, and when it is accepted. */
module FileChanges {
  import opened Controllers
  import opened ControllersFile
  import opened Mutations
  import opened Profiles
  import opened Resolver
  import opened Store
  import opened StoreRuns
  import opened Verdicts
  import opened Wrappers

  /** Every entry but those of the paths is as it was. */
  ghost predicate OnlyFiles(a: Disk, b: Disk, paths: set<string>) {
    forall path :: path !in paths ==> Held(b, path) == Held(a, path)
  }

  ghost predicate FileIs(disk: Disk, path: string, text: string) { Held(disk, path) == Some(File(text)) }

  /** The first profile with the id. */
  ghost predicate FirstWith(profiles: seq<Profile>, id: string, p: Profile) {
    exists i :: 0 <= i < |profiles| && profiles[i] == p && p.id == id && forall j :: 0 <= j < i ==> profiles[j].id != id
  }

  predicate NoneWith(profiles: seq<Profile>, id: string) { forall p :: p in profiles ==> p.id != id }

  predicate GoodId(id: string) { ValidId(id) && |id| < ID_MAX }

  lemma FirstIs(profiles: seq<Profile>, id: string)
    ensures FindProfile(profiles, id) == |profiles| <==> NoneWith(profiles, id)
    ensures forall p :: FirstWith(profiles, id, p) <==> FindProfile(profiles, id) < |profiles| && profiles[FindProfile(profiles, id)] == p
  {
    var i := FindProfile(profiles, id);
    if i < |profiles| { assert profiles[i] in profiles; }
    forall p | FirstWith(profiles, id, p) ensures i < |profiles| && profiles[i] == p {
      var k :| 0 <= k < |profiles| && profiles[k] == p && p.id == id && forall j :: 0 <= j < k ==> profiles[j].id != id;
      assert k == i;
    }
  }

  /** The rules' file and the published rules stay as they are when no operation on rules commits. */
  lemma SameRules(codec: Codec, mode: Mode, op: Op, s: Snapshot, t: Snapshot)
    requires Tracked(s) && OpStep(codec, mode, op, s, t, true) && !op.Reload? && Held(t.disk, CONTROLLERS_PATH) == Held(s.disk, CONTROLLERS_PATH)
    ensures t.memory.controllers == s.memory.controllers
  {
    hide View, RulesOn, Storable, Plan, Sound, Continues;
    HeldRules(t.disk, s.disk);
    ViewStorable(codec, t.disk);
  }

  // ---- runtime settings and single profiles --------------------------------------------------

  /** Runtime settings are accepted exactly if they do not make an owned profile the active one and can be written. */
  lemma RuntimeAccepted(codec: Codec, s: Snapshot, wanted: Runtime)
    ensures RuntimePlan(codec, s, wanted).Some?
       <==> codec.runtimeText(wanted).Some? && forall p :: p in s.memory.profiles && p.id == wanted.active ==> !Owned(p)
  {
    hide Owned;
  }

  lemma RuntimeSaved(codec: Codec, mode: Mode, s: Snapshot, t: Snapshot, wanted: Runtime) returns (text: string)
    requires Tracked(s) && OpStep(codec, mode, SaveRuntime(wanted), s, t, true)
    ensures codec.runtimeText(wanted) == Some(text) && FileIs(t.disk, RUNTIME_PATH, text) && OnlyFiles(s.disk, t.disk, {RUNTIME_PATH})
    ensures codec.readRuntime(text) == Some(t.memory.runtime) && t.memory.controllers == s.memory.controllers
  {
    hide Tracked, RulesOn, AssociationsValid;
    text := codec.runtimeText(wanted).value;
    PathsDistinct("", "");
    SameRules(codec, mode, SaveRuntime(wanted), s, t);
  }

  /** A profile may be saved exactly if it can be written and read back, and is either no controller's, before and after, or
      stays what it is to its owner. */
  lemma ProfileAccepted(codec: Codec, s: Snapshot, mode: Mode, p: Profile)
    ensures SaveProfilePlan(codec, s, mode, p).Some?
       <==> && codec.profileText(p).Some? && codec.parseProfile(codec.profileText(p).value).Some?
            && match OwnedProfile(s.memory.profiles, p.id)
               case Some(owned) => !mode.Disabled? && SameShape(p, owned)
               case None =>
                 !Owned(p) && forall r :: r in s.memory.controllers && r.profileId != "" ==> r.profileId != p.id
    ensures OwnedProfile(s.memory.profiles, p.id).Some? <==> exists q :: q in s.memory.profiles && q.id == p.id && Owned(q)
    ensures OwnedProfile(s.memory.profiles, p.id).Some? ==>
      var q := OwnedProfile(s.memory.profiles, p.id).value; q in s.memory.profiles && q.id == p.id && Owned(q)
  {
    hide Owned, ProfilePath;
    OwnedIs(s.memory.profiles, p.id);
  }

  lemma {:induction false} OwnedIs(profiles: seq<Profile>, id: string)
    ensures OwnedProfile(profiles, id).Some? <==> exists q :: q in profiles && q.id == id && Owned(q)
    ensures OwnedProfile(profiles, id).Some? ==>
      var q := OwnedProfile(profiles, id).value; q in profiles && q.id == id && Owned(q)
    decreases |profiles|
  {
    hide Owned;
    if profiles != [] {
      var n := |profiles| - 1;
      OwnedIs(profiles[..n], id);
      assert forall q :: q in profiles <==> q in profiles[..n] || q == profiles[n];
    }
  }

  /** One profile's file is written, and nothing else. */
  ghost predicate ProfileWritten(codec: Codec, s: Snapshot, t: Snapshot, p: Profile, id: string) {
    && codec.profileText(p).Some? && FileIs(t.disk, ProfilePath(id), codec.profileText(p).value)
    && OnlyFiles(s.disk, t.disk, {ProfilePath(id)}) && t.memory.controllers == s.memory.controllers
  }

  lemma ProfileSaved(codec: Codec, mode: Mode, s: Snapshot, t: Snapshot, p: Profile)
    requires Tracked(s) && OpStep(codec, mode, SaveProfile(p), s, t, true)
    ensures ProfileWritten(codec, s, t, p, p.id)
  {
    hide Tracked, View, RulesOn, ProfilePath, MaySave;
    PathsDistinct(p.id, p.id);
    SameRules(codec, mode, SaveProfile(p), s, t);
  }

  /** An edit writes the first profile with the id, with the key applied; an owned one only where instance rules are in
      use. */
  lemma ProfileEdited(codec: Codec, mode: Mode, s: Snapshot, t: Snapshot, id: string, key: string, value: string) returns (p: Profile)
    requires Tracked(s) && OpStep(codec, mode, EditProfile(id, key, value), s, t, true)
    ensures FirstWith(s.memory.profiles, id, p) && !(Owned(p) && mode.Disabled?)
    ensures codec.applyKey(p, key, value).Some? && ProfileWritten(codec, s, t, codec.applyKey(p, key, value).value, id)
  {
    hide Tracked, View, RulesOn, ProfilePath, ValidId, Owned;
    PathsDistinct(id, id);
    FirstIs(s.memory.profiles, id);
    SameRules(codec, mode, EditProfile(id, key, value), s, t);
    p := s.memory.profiles[FindProfile(s.memory.profiles, id)];
  }

  lemma EditAccepted(codec: Codec, s: Snapshot, mode: Mode, id: string, key: string, value: string, p: Profile)
    requires GoodId(id) && FirstWith(s.memory.profiles, id, p) && !(Owned(p) && mode.Disabled?)
    requires codec.applyKey(p, key, value).Some?
    requires var edited := codec.applyKey(p, key, value).value;
      codec.profileText(edited).Some? && codec.parseProfile(codec.profileText(edited).value).Some?
    ensures EditPlan(codec, s, mode, id, key, value).Some?
  {
    hide Owned, ProfilePath, ValidId;
    FirstIs(s.memory.profiles, id);
  }

  /** A creation writes a blank profile under a new id. */
  lemma ProfileCreated(codec: Codec, mode: Mode, s: Snapshot, t: Snapshot, id: string)
    requires Tracked(s) && OpStep(codec, mode, CreateProfile(id), s, t, true)
    ensures NoneWith(s.memory.profiles, id) && ProfileWritten(codec, s, t, codec.newProfile(id), id)
  {
    hide Tracked, View, RulesOn, ProfilePath, ValidId;
    PathsDistinct(id, id);
    FirstIs(s.memory.profiles, id);
    SameRules(codec, mode, CreateProfile(id), s, t);
  }

  lemma CreateAccepted(codec: Codec, s: Snapshot, id: string)
    ensures CreatePlan(codec, s, id).Some?
       <==> GoodId(id) && |s.memory.profiles| < MAX_PROFILES && NoneWith(s.memory.profiles, id) && codec.profileText(codec.newProfile(id)).Some?
  {
    hide ValidId, ProfilePath;
    FirstIs(s.memory.profiles, id);
  }

  /** A renamed profile: its id, and its name if that was the id. */
  predicate RenamedFrom(p: Profile, q: Profile, from: string, to: string) {
    q == p.(id := to, name := q.name) && q.name == if p.name == from then to else p.name
  }

  /** What a rename leaves on the disk. */
  ghost predicate RenameLeaves(codec: Codec, s: Snapshot, disk: Disk, from: string, to: string, q: Profile) {
    && codec.profileText(q).Some? && FileIs(disk, ProfilePath(to), codec.profileText(q).value) && ProfilePath(from) !in disk
    && if s.memory.runtime.active == from then
         && codec.runtimeText(s.memory.runtime.(active := to)).Some?
         && FileIs(disk, RUNTIME_PATH, codec.runtimeText(s.memory.runtime.(active := to)).value)
         && OnlyFiles(s.disk, disk, {ProfilePath(from), ProfilePath(to), RUNTIME_PATH})
       else OnlyFiles(s.disk, disk, {ProfilePath(from), ProfilePath(to)})
  }

  predicate MayRename(s: Snapshot, from: string, to: string) {
    && GoodId(from) && GoodId(to) && from != "default" && !SameFold(to, "auto") && from != to
    && NoneWith(s.memory.profiles, to) && TextAt(s.disk, ProfilePath(from)).Some? && ProfilePath(to) !in s.disk
  }

  lemma RenamePlanned(codec: Codec, s: Snapshot, from: string, to: string, p: Profile, q: Profile)
    requires FirstWith(s.memory.profiles, from, p) && RenamedFrom(p, q, from, to)
    ensures RenamePlan(codec, s, from, to).Some?
       <==> && MayRename(s, from, to) && !Owned(p) && codec.profileText(q).Some?
            && (s.memory.runtime.active == from ==> codec.runtimeText(s.memory.runtime.(active := to)).Some?)
    ensures RenamePlan(codec, s, from, to).Some? ==> RenameLeaves(codec, s, RenamePlan(codec, s, from, to).value, from, to, q)
  {
    hide ProfilePath, ValidId, Owned, SameFold, FirstWith;
    PathsDistinct(from, to);
    PathsDistinct(to, from);
    FirstIs(s.memory.profiles, from);
    FirstIs(s.memory.profiles, to);
  }

  lemma RenameNeeds(codec: Codec, s: Snapshot, from: string, to: string) returns (p: Profile, q: Profile)
    requires RenamePlan(codec, s, from, to).Some?
    ensures FirstWith(s.memory.profiles, from, p) && RenamedFrom(p, q, from, to)
  {
    hide ProfilePath, ValidId, Owned, SameFold, FirstWith;
    FirstIs(s.memory.profiles, from);
    p := s.memory.profiles[FindProfile(s.memory.profiles, from)];
    q := p.(id := to, name := if p.name == from then to else p.name);
  }

  /** After a rename the old file is gone and the new one holds the profile under its new id; the runtime settings are
      rewritten exactly if they named the old one, and then name the new one; nothing else changes. The default profile,
      owned profiles and taken names are refused. */
  lemma ProfileRenamed(codec: Codec, mode: Mode, s: Snapshot, t: Snapshot, from: string, to: string) returns (p: Profile, q: Profile)
    requires Tracked(s) && OpStep(codec, mode, RenameProfile(from, to), s, t, true)
    ensures FirstWith(s.memory.profiles, from, p) && RenamedFrom(p, q, from, to) && !Owned(p) && MayRename(s, from, to)
    ensures RenameLeaves(codec, s, t.disk, from, to, q) && t.memory.controllers == s.memory.controllers
  {
    hide Tracked, View, RulesOn, ProfilePath, MayRename, RenamedFrom, FirstWith, RenamePlan, Owned;
    p, q := RenameNeeds(codec, s, from, to);
    RenamePlanned(codec, s, from, to, p, q);
    PathsDistinct(from, to);
    PathsDistinct(to, from);
    SameRules(codec, mode, RenameProfile(from, to), s, t);
  }

  // ---- setups --------------------------------------------------------------------------------

  /** A setup writes the profile, enrols the rule and makes the choice of profile automatic. */
  ghost predicate SetUp(codec: Codec, s: Snapshot, t: Snapshot, p: Profile, rule: Rule) {
    var runtime := s.memory.runtime.(active := "auto");
    && codec.profileText(p).Some? && FileIs(t.disk, ProfilePath(p.id), codec.profileText(p).value)
    && codec.runtimeText(runtime).Some? && FileIs(t.disk, RUNTIME_PATH, codec.runtimeText(runtime).value)
    && OnlyFiles(s.disk, t.disk, {ProfilePath(p.id), CONTROLLERS_PATH, RUNTIME_PATH})
    && OnlyChanged(s.memory.controllers, t.memory.controllers, rule)
  }

  lemma SetupPublished(codec: Codec, s: Snapshot, t: Snapshot, p: Profile, rule: Rule)
    requires Sound(s) && Done(codec, s, t, SetupPlan(codec, s, p, rule), true)
    ensures SetUp(codec, s, t, p, rule) && !Owned(p) && rule.instanceId == ""
    ensures forall o :: StoredAs(s.memory.controllers, o, rule.id) ==> o.instanceId == "" && o.vid == rule.vid && o.pid == rule.pid
  {
    hide View, RulesOn, Storable, Enrol, Text, Load, ProfileFits, ProfilePath, OnlyChanged, Valid, Owned;
    var rules := Enrol(s.memory.controllers, rule);
    PathsDistinct(p.id, p.id);
    LoadSerialize(rules);
    ViewStorable(codec, t.disk);
    TextOn(t.disk, rules);
    EnrolChanges(s.memory.controllers, rule);
    forall o | StoredAs(s.memory.controllers, o, rule.id) ensures o.instanceId == "" && o.vid == rule.vid && o.pid == rule.pid {
      StoredIs(s.memory.controllers, o, rule.id);
    }
  }

  lemma SetupSaved(codec: Codec, mode: Mode, s: Snapshot, t: Snapshot, p: Profile, rule: Rule)
    requires Sound(s) && OpStep(codec, mode, SaveSetup(p, rule), s, t, true)
    ensures SetUp(codec, s, t, p, rule) && !Owned(p) && rule.instanceId == ""
  {
    hide SetupPlan, Done, SetUp, Owned;
    SetupPublished(codec, s, t, p, rule);
  }

  /** A guided setup keeps the product's model rule just as it is, and without one adds a rule for the profile's controller:
      enabled, not ignored, with the profile's protocol and automatic in everything else. */
  lemma SetupPreserved(codec: Codec, mode: Mode, s: Snapshot, t: Snapshot, p: Profile) returns (rule: Rule)
    requires Sound(s) && OpStep(codec, mode, SaveSetupPreserving(p), s, t, true)
    ensures SetUp(codec, s, t, p, rule) && !p.matchAnyVid && !p.matchAnyPid
    ensures rule.vid == p.matchVid && rule.pid == p.matchPid && rule.instanceId == ""
    ensures var a := s.memory.controllers;
      if exists o :: o in a && o.instanceId == "" && o.vid == p.matchVid && o.pid == p.matchPid then rule in a
      else rule == Rule(p.id, if p.name == "" then p.id else p.name, 1, 0, p.matchVid, p.matchPid, p.protocol, 0, 0, -1, 0, "", "")
  {
    hide SetupPlan, Done, SetUp, Owned;
    CommittedPlan(codec, s, t, PreservingPlan(codec, s, p));
    rule := PreservedRule(s.memory.controllers, p);
    SetupPublished(codec, s, t, p, rule);
    ModelIs(s.memory.controllers, p.matchVid, p.matchPid);
  }

  lemma CommittedPlan(codec: Codec, s: Snapshot, t: Snapshot, plan: Option<Disk>)
    requires Done(codec, s, t, plan, true)
    ensures plan.Some?
  {
    hide View;
  }

  lemma ModelIs(rules: seq<Rule>, vid: U16, pid: U16)
    ensures FindModel(rules, vid, pid) < |rules| <==> exists o :: o in rules && o.instanceId == "" && o.vid == vid && o.pid == pid
    ensures FindModel(rules, vid, pid) < |rules| ==> rules[FindModel(rules, vid, pid)] in rules
  {
    var i := FindModel(rules, vid, pid);
    if i < |rules| { assert rules[i] in rules; }
  }

  // ---- binding one controller ----------------------------------------------------------------

  /** The rule a controller's setup publishes: its own, now bound to the profile; new ones are modelled on the product's
      rule, or else on the request. */
  ghost predicate BoundFrom(rules: seq<Rule>, draft: Profile, at: Match, q: Rule) {
    && q.instanceId == at.instanceId && q.vid == at.vid && q.pid == at.pid && Binds(q, at)
    && (forall o :: StoredAs(rules, o, q.id) ==>
          q == o.(profileId := q.profileId) && (o.profileId == "" || o.profileId == q.profileId))
    && (NotStored(rules, q.id) ==>
          if exists o :: o in rules && o.instanceId == "" && o.vid == at.vid && o.pid == at.pid then
            exists o :: o in rules && o.instanceId == "" && o.vid == at.vid && o.pid == at.pid
              && AsAsked(o.(id := q.id), q) && q.interfaceNumber == o.interfaceNumber && q.outputType == o.outputType
          else
            && q.name == draft.name && q.enabled == 1 && q.ignored == 0 && q.protocol == at.protocol && q.inEndpoint == q.outEndpoint == 0
            && q.interfaceNumber == -1 && q.outputType == 0)
  }

  /** The profile it writes: the draft, owned by the rule; an existing one keeps its name and protocol. */
  ghost predicate OwnedFrom(profiles: seq<Profile>, draft: Profile, q: Rule, was: Option<Profile>, p: Profile) {
    && p.ownerController == q.id && p.ownerInstance == q.instanceId && p.schema == INSTANCE_SCHEMA
    && p.id == draft.id && p.enabled == draft.enabled && p.mapping == draft.mapping && p.matchVid == draft.matchVid
    && p.matchPid == draft.matchPid && p.matchAnyVid == draft.matchAnyVid && p.matchAnyPid == draft.matchAnyPid
    && match was
       case None => p.name == draft.name && p.protocol == draft.protocol
       case Some(o) => p.name == o.name && p.protocol == o.protocol && o.ownerController == q.id && o.ownerInstance == q.instanceId
  }

  lemma BoundRuleIs(rules: seq<Rule>, draft: Profile, at: Match, id: string, profileId: string)
    requires Storable(rules) && BoundRule(rules, draft, at, id, profileId).Some?
    ensures var q := BoundRule(rules, draft, at, id, profileId).value.(profileId := profileId); q.id == id && BoundFrom(rules, draft, at, q)
  {
    hide Storable, SameProtocol;
    EitherStored(rules, id);
    ModelIs(rules, at.vid, at.pid);
    if NotStored(rules, id) { NoneStored(rules, id); }
    forall o | StoredAs(rules, o, id) ensures FindId(rules, id) < |rules| && rules[FindId(rules, id)] == o { StoredIs(rules, o, id); }
    var model := FindModel(rules, at.vid, at.pid);
    if FindId(rules, id) == |rules| && model < |rules| {
      assert rules[model] in rules;
    }
  }

  lemma BoundProfileIs(profiles: seq<Profile>, rule: Rule, draft: Profile, at: Match, profileId: string)
    requires BoundProfile(profiles, rule, draft, at, profileId).Some?
    ensures var p := BoundProfile(profiles, rule, draft, at, profileId).value;
      if rule.profileId == "" then NoneWith(profiles, profileId) && OwnedFrom(profiles, draft, rule, None, p)
      else exists o :: FirstWith(profiles, profileId, o) && OwnedFrom(profiles, draft, rule, Some(o), p)
  {
    FirstIs(profiles, profileId);
    var i := FindProfile(profiles, profileId);
    if i < |profiles| { assert FirstWith(profiles, profileId, profiles[i]); }
  }

  /** Main result: a controller's setup publishes exactly its rule, bound to the profile, and writes that profile and the
      rules' file, nothing else. */
  lemma BoundSaved(codec: Codec, mode: Mode, s: Snapshot, t: Snapshot, draft: Profile, at: Match, id: string, profileId: string)
    returns (q: Rule, p: Profile)
    requires Sound(s) && OpStep(codec, mode, SaveSetupForController(draft, at, id, profileId), s, t, true)
    ensures mode.Live? && InstanceRequestValid(draft, at, id, profileId)
    ensures q.id == id && q.profileId == profileId && BoundFrom(s.memory.controllers, draft, at, q)
    ensures OnlyChanged(s.memory.controllers, t.memory.controllers, q)
    ensures codec.profileText(p).Some? && FileIs(t.disk, ProfilePath(profileId), codec.profileText(p).value)
    ensures OnlyFiles(s.disk, t.disk, {ProfilePath(profileId), CONTROLLERS_PATH})
    ensures || (NoneWith(s.memory.profiles, profileId) && OwnedFrom(s.memory.profiles, draft, q, None, p))
            || exists o :: FirstWith(s.memory.profiles, profileId, o) && OwnedFrom(s.memory.profiles, draft, q, Some(o), p)
  {
    hide View, RulesOn, Storable, Enrol, Text, Load, ProfilePath, OnlyChanged, InstanceRequestValid, BoundRule, BoundProfile,
         AssociationsValid, BoundFrom, FirstWith;
    var b := BindingOf(codec, s.memory, draft, at, id, profileId).value;
    q, p := b.rule, b.profile;
    var rules := Enrol(s.memory.controllers, q);
    PathsDistinct(profileId, profileId);
    BoundRuleIs(s.memory.controllers, draft, at, id, profileId);
    BoundProfileIs(s.memory.profiles, BoundRule(s.memory.controllers, draft, at, id, profileId).value, draft, at, profileId);
    LoadSerialize(rules);
    ViewStorable(codec, t.disk);
    TextOn(t.disk, rules);
    EnrolChanges(s.memory.controllers, q);
  }

  /** Setup and resolver agree: once a controller's setup has committed and the profile it wrote is the first published under
      its id, that controller resolves to its rule and profile, provided both are in force. */
  lemma SetupResolves(codec: Codec, s: Snapshot, t: Snapshot, draft: Profile, at: Match, id: string, profileId: string, q: Rule, p: Profile)
    requires Sound(s) && OpStep(codec, Live, SaveSetupForController(draft, at, id, profileId), s, t, true)
    requires Sound(t) && StoredAs(t.memory.controllers, q, id) && q.enabled != 0 && q.ignored == 0
    requires FirstNamed(t.memory.profiles, profileId, p) && p.enabled && p.ownerController == id && p.ownerInstance == at.instanceId
    requires !p.matchAnyVid && !p.matchAnyPid && p.matchVid == at.vid && p.matchPid == at.pid && SameProtocol(p.protocol, at.protocol)
    ensures Resolve(t, Live, at) == Some(Resolution(Instance, Some(q), Some(p), t.generation))
  {
    hide View, RulesOn, Storable, Enrol, Text, Load, ProfilePath, Binds, SameProtocol, Resolve, FirstNamed;
    var r, _ := BoundSaved(codec, Live, s, t, draft, at, id, profileId);
    assert r == q by { OnlyUnder(s.memory.controllers, t.memory.controllers, r, q); }
    assert Entitled(t, Live, at, q, p);
    InstanceOf(t, Live, at, q, p);
  }

  lemma OnlyUnder(a: seq<Rule>, b: seq<Rule>, r: Rule, q: Rule)
    requires OnlyChanged(a, b, r) && q in b && q.id == r.id
    ensures q == r
  {
  }
}
