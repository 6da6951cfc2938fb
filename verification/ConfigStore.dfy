/** The configuration store: its published memory, the files behind it, and the mutators that keep the two together.

    Any file operation may be refused at any time; how many still will be is a number the operations count down, so that they
    can also promise what happens when there are none. A replacement is a write to a temporary file and a rename, so a failed
    one leaves the file as it was; the temporary names are not part of the modelled disk. */
module ConfigStore {
  import opened Controllers
  import opened ControllersFile
  import opened Profiles
  import opened Store
  import opened StoreRuns
  import opened Wrappers

  lemma FindIdIs(rules: seq<Rule>, id: string, i: nat)
    requires i <= |rules| && (i < |rules| ==> rules[i].id == id) && forall j :: 0 <= j < i ==> rules[j].id != id
    ensures i == FindId(rules, id)
  {
  }

  lemma FindProfileIs(profiles: seq<Profile>, id: string, i: nat)
    requires i <= |profiles| && (i < |profiles| ==> profiles[i].id == id) && forall j :: 0 <= j < i ==> profiles[j].id != id
    ensures i == FindProfile(profiles, id)
  {
  }

  method RuleIndex(rules: seq<Rule>, id: string) returns (i: nat)
    ensures i == FindId(rules, id)
  {
    i := 0;
    while i < |rules| && rules[i].id != id
      invariant i <= |rules| && forall j :: 0 <= j < i ==> rules[j].id != id
    {
      i := i + 1;
    }
    FindIdIs(rules, id, i);
  }

  method ProfileIndex(profiles: seq<Profile>, id: string) returns (i: nat)
    ensures i == FindProfile(profiles, id)
  {
    i := 0;
    while i < |profiles| && profiles[i].id != id
      invariant i <= |profiles| && forall j :: 0 <= j < i ==> profiles[j].id != id
    {
      i := i + 1;
    }
    FindProfileIs(profiles, id, i);
  }

  method OwnedActive(profiles: seq<Profile>, id: string) returns (r: bool)
    ensures r <==> exists i :: 0 <= i < |profiles| && profiles[i].id == id && Owned(profiles[i])
  {
    for i := 0 to |profiles|
      invariant forall j :: 0 <= j < i ==> !(profiles[j].id == id && Owned(profiles[j]))
    {
      if profiles[i].id == id && Owned(profiles[i]) { return true; }
    }
    return false;
  }

  method CheckMaySave(m: Memory, mode: Mode, profile: Profile) returns (r: bool)
    ensures r == MaySave(m, mode, profile)
  {
    var forbidden, existing := false, false;
    for i := 0 to |m.profiles|
      invariant existing == OwnedProfile(m.profiles[..i], profile.id).Some?
      invariant existing ==> forbidden == !SameShape(profile, OwnedProfile(m.profiles[..i], profile.id).value)
    {
      assert m.profiles[..i + 1][..i] == m.profiles[..i];
      if m.profiles[i].id == profile.id && Owned(m.profiles[i]) {
        existing, forbidden := true, !SameShape(profile, m.profiles[i]);
      }
    }
    assert m.profiles[..|m.profiles|] == m.profiles;
    if existing { return !mode.Disabled? && !forbidden; }
    if Owned(profile) { return false; }
    for i := 0 to |m.controllers|
      invariant forall j :: 0 <= j < i ==> m.controllers[j].profileId == "" || m.controllers[j].profileId != profile.id
    {
      if m.controllers[i].profileId != "" && m.controllers[i].profileId == profile.id { return false; }
    }
    return true;
  }

  method CheckProfileFits(profiles: seq<Profile>, p: Profile) returns (r: bool)
    ensures r == ProfileFits(profiles, p)
  {
    var replacing := false;
    for i := 0 to |profiles|
      invariant replacing <==> exists j :: 0 <= j < i && profiles[j].id == p.id
      invariant forall j :: 0 <= j < i ==>
        if profiles[j].id == p.id then
          !Owned(profiles[j]) && MatchesExactIdentity(profiles[j], p.matchVid, p.matchPid, p.protocol)
        else !MatchesExactIdentity(profiles[j], p.matchVid, p.matchPid, p.protocol)
    {
      var matches := MatchesExactIdentity(profiles[i], p.matchVid, p.matchPid, p.protocol);
      if profiles[i].id == p.id {
        if Owned(profiles[i]) || !matches { return false; }
        replacing := true;
      } else if matches {
        return false;
      }
    }
    return replacing || |profiles| < MAX_PROFILES;
  }

  // ---- undoing several files -----------------------------------------------------------------

  /** `was` is what to restore at `path` to have it as on `disk`. */
  ghost predicate Saved(disk: Disk, path: string, was: Option<string>) {
    Put(disk, path, was) == disk && (was.None? <==> path !in disk)
  }

  lemma PutHeld(base: Disk, now: Disk, path: string, was: Option<string>)
    requires Saved(base, path, was)
    ensures Held(Put(now, path, was), path) == Held(base, path)
    ensures forall q :: q != path ==> Held(Put(now, path, was), q) == Held(now, q)
  {
    if was.Some? { assert Put(base, path, was)[path] == base[path]; }
  }

  lemma HeldEqual(a: Disk, b: Disk)
    requires forall q :: Held(a, q) == Held(b, q)
    ensures a == b
  {
    forall q ensures q in a <==> q in b { assert Held(a, q) == Held(b, q); }
    forall q | q in a ensures a[q] == b[q] { assert Held(a, q) == Held(b, q); }
  }

  /** On the way back from `planned` to `base`: outside `rest` everything is as before, unless something failed. */
  ghost predicate Undoing(base: Disk, planned: Disk, now: Disk, rest: set<string>, failed: bool) {
    && Mixed(base, planned, now)
    && (!failed ==> forall q :: q !in rest ==> Held(now, q) == Held(base, q))
  }

  /** Only the given files may already hold their planned contents. */
  ghost predicate PartlyWritten(base: Disk, planned: Disk, now: Disk, written: set<string>) {
    forall q :: Held(now, q) == Held(base, q) || (Held(now, q) == Held(planned, q) && q in written)
  }

  function Changed(path: string, changed: bool): set<string> { if changed then {path} else {} }

  lemma Undone(base: Disk, planned: Disk, now: Disk)
    requires Undoing(base, planned, now, {}, false)
    ensures now == base
  {
    HeldEqual(now, base);
  }

  lemma ThreeWritten(base: Disk, path: string, profileText: string, rulesText: string, runtimeText: string,
                     profile: bool, rules: bool, runtime: bool, now: Disk)
    requires path !in {CONTROLLERS_PATH, RUNTIME_PATH} && (runtime ==> rules) && (rules ==> profile)
    requires var a := if profile then base[path := File(profileText)] else base;
      var b := if rules then a[CONTROLLERS_PATH := File(rulesText)] else a;
      now == if runtime then b[RUNTIME_PATH := File(runtimeText)] else b
    ensures PartlyWritten(base, base[path := File(profileText)][CONTROLLERS_PATH := File(rulesText)][RUNTIME_PATH := File(runtimeText)],
                          now, Changed(path, profile) + Changed(CONTROLLERS_PATH, rules) + Changed(RUNTIME_PATH, runtime))
  {
  }

  lemma RenameWritten(base: Disk, from: string, to: string, text: string, redirect: bool, runtimeText: string, now: Disk)
    requires from != to && RUNTIME_PATH !in {from, to}
    requires var written := base[to := File(text)];
      var redirected := if redirect then written[RUNTIME_PATH := File(runtimeText)] else written;
      now == base || now == written || now == redirected || now == redirected - {from}
    ensures PartlyWritten(base, ConfigStore.Renamed(base, from, to, text, redirect, runtimeText), now,
                          {from, to} + if redirect then {RUNTIME_PATH} else {})
  {
  }

  /** A call that does nothing is always in order. */
  lemma NothingDone(codec: Codec, mode: Mode, op: Op, s: Snapshot)
    requires !op.Reload?
    ensures OpStep(codec, mode, op, s, s, false)
    ensures forall plan :: Done(codec, s, s, plan, false)
  {
    hide Plan;
  }

  lemma BindPlanIs(codec: Codec, s: Snapshot, draft: Profile, at: Match, id: string, profileId: string, bound: Rule,
                   profile: Profile, text: string)
    requires InstanceRequestValid(draft, at, id, profileId) && BoundRule(s.memory.controllers, draft, at, id, profileId).Some?
    requires var found := BoundRule(s.memory.controllers, draft, at, id, profileId).value;
      && bound == found.(profileId := profileId)
      && BoundProfile(s.memory.profiles, found, draft, at, profileId) == Some(profile)
    requires var i := FindProfile(s.memory.profiles, profileId);
      AssociationsValid(Enrol(s.memory.controllers, bound), if i < |s.memory.profiles| then s.memory.profiles[i := profile]
                                                           else s.memory.profiles + [profile])
    requires Storable(Enrol(s.memory.controllers, bound))
    requires codec.profileText(profile) == Some(text) && codec.parseProfile(text).Some?
    ensures BindPlan(codec, s, draft, at, id, profileId)
         == Some(s.disk[ProfilePath(profileId) := File(text)][CONTROLLERS_PATH := File(Text(Enrol(s.memory.controllers, bound)))])
  {
    hide InstanceRequestValid, BoundRule, BoundProfile, AssociationsValid, Storable, Enrol, Text, ProfilePath;
  }

  lemma BindStep(codec: Codec, mode: Mode, s: Snapshot, t: Snapshot, draft: Profile, at: Match, id: string, profileId: string,
                 committed: bool)
    requires mode.Live? && Done(codec, s, t, BindPlan(codec, s, draft, at, id, profileId), committed)
    ensures OpStep(codec, mode, Op.SaveSetupForController(draft, at, id, profileId), s, t, committed)
  {
    hide Done, BindPlan;
  }

  lemma BoundPublished(codec: Codec, s: Snapshot, t: Snapshot, path: string, text: string, rules: seq<Rule>)
    requires Done(codec, s, t, Some(s.disk[path := File(text)][CONTROLLERS_PATH := File(Text(rules))]), true) && Storable(rules)
    ensures t.memory.controllers == rules
  {
    hide View, Text, Storable;
    PublishedRules(codec, t.disk, rules);
  }

  lemma CreatePlanIs(codec: Codec, s: Snapshot, id: string, text: string)
    requires ValidId(id) && |id| < ID_MAX && |s.memory.profiles| < MAX_PROFILES
    requires FindProfile(s.memory.profiles, id) == |s.memory.profiles| && codec.profileText(codec.newProfile(id)) == Some(text)
    ensures CreatePlan(codec, s, id) == Some(s.disk[ProfilePath(id) := File(text)])
  {
    hide ValidId, ProfilePath;
  }

  lemma RemovedMixed(base: Disk, path: string, text: string)
    ensures Mixed(base, base[path := File(text)], base[path := File(text)])
    ensures path !in base ==> base - {path} == base
  {
  }

  /** Ended as every mutator may, or with the file removed that the write put in place. */
  lemma CreateStep(codec: Codec, mode: Mode, s: Snapshot, t: Snapshot, id: string, ok: bool)
    requires CreatePlan(codec, s, id).Some? && Authorised(s)
    requires || Done(codec, s, t, CreatePlan(codec, s, id), ok)
             || (!ok && t == s.(disk := s.disk - {ProfilePath(id)}) && Occupied(s.disk, ProfilePath(id)))
    ensures OpStep(codec, mode, Op.CreateProfile(id), s, t, ok)
  {
    hide Done, CreatePlan, ProfilePath;
  }

  lemma RestoredMixed(base: Disk, path: string, was: Option<string>, text: string, now: Disk)
    requires Saved(base, path, was)
    requires now == base[path := File(text)] || now == Put(base[path := File(text)], path, was)
    ensures Mixed(base, base[path := File(text)], now)
    ensures now == Put(base[path := File(text)], path, was) ==> now == base
  {
    PutHeld(base, base[path := File(text)], path, was);
    HeldEqual(Put(base[path := File(text)], path, was), base);
  }

  /** How a mutator that has its plan ends: published, undone, or quarantined with the files it could not undo. */
  lemma Ended(codec: Codec, s: Snapshot, t: Snapshot, plan: Disk, ok: bool)
    requires Authorised(s)
    requires if ok then Store.Published(codec, s.(disk := plan), t, plan)
             else t == s || (t == Invalidated(s.(disk := t.disk)) && Mixed(s.disk, plan, t.disk))
    ensures Done(codec, s, t, Some(plan), ok)
  {
    hide View, Mixed;
  }

  // ---- when a mutation must succeed ----------------------------------------------------------

  /** Every entry is a regular file of readable text. */
  ghost predicate Ordinary(disk: Disk) { forall path :: path in disk ==> disk[path].File? && Readable(disk[path].text) }

  ghost predicate ReadableAt(disk: Disk, path: string) { TextAt(disk, path).Some? && Readable(TextAt(disk, path).value) }

  /** A reload of the disk finds everything it needs. */
  ghost predicate Loadable(codec: Codec, disk: Disk) {
    View(codec, disk).Some? && ReadableAt(disk, RUNTIME_PATH) && ReadableAt(disk, CONTROLLERS_PATH)
  }

  ghost predicate AttainableDisk(codec: Codec, s: Snapshot, disk: Disk) {
    Authorised(s) && s.generation < UINT64_MAX && Ordinary(s.disk) && Loadable(codec, disk)
  }

  /** The plan is accepted, and nothing in the files stands in its way. */
  ghost predicate Attainable(codec: Codec, s: Snapshot, plan: Option<Disk>) {
    plan.Some? && AttainableDisk(codec, s, plan.value)
  }

  ghost predicate AllFiles(disk: Disk) { forall path :: path in disk ==> disk[path].File? }

  lemma UndoClear(base: Disk, planned: Disk, now: Disk, rest: set<string>, failed: bool, path: string, was: Option<string>)
    requires Saved(base, path, was) && Undoing(base, planned, now, rest, failed) && Ordinary(base) && AllFiles(planned)
    ensures was.Some? ==> Readable(was.value)
    ensures path in now ==> now[path].File?
  {
    assert Held(now, path) == Held(base, path) || Held(now, path) == Held(planned, path);
    SavedReadable(base, path, was);
  }

  lemma SavedReadable(base: Disk, path: string, was: Option<string>)
    requires Saved(base, path, was) && Ordinary(base)
    ensures was.Some? ==> Readable(was.value)
  {
  }

  /** In an ordinary directory each of three writes finds its way clear. */
  lemma ThreeOpen(base: Disk, a: string, aText: string, b: string, bText: string, c: string, cText: string)
    requires Ordinary(base)
    ensures var first := base[a := File(aText)]; var second := first[b := File(bText)];
      && (a in base ==> Occupied(base, a)) && (b in first ==> Occupied(first, b)) && (c in second ==> Occupied(second, c))
      && AllFiles(second) && AllFiles(second[c := File(cText)])
  {
  }

  /** An attainable plan is carried out unless a request is refused; and a plan that is not carried out leaves everything as
      it was, unless a request is refused on top of whatever made it fail. */
  ghost predicate Prompt(codec: Codec, s: Snapshot, t: Snapshot, plan: Option<Disk>, committed: bool, refusals: nat) {
    && (refusals == 0 && Attainable(codec, s, plan) ==> committed)
    && (Ordinary(s.disk) && (refusals == 0 || (refusals == 1 && Attainable(codec, s, plan))) && !committed ==> t == s)
  }

  lemma RenameOpen(base: Disk, from: string, to: string, text: string, redirect: bool, runtimeText: string)
    requires Ordinary(base)
    ensures to in base ==> Occupied(base, to)
    ensures RUNTIME_PATH in base[to := File(text)] ==> Occupied(base[to := File(text)], RUNTIME_PATH)
    ensures AllFiles(ConfigStore.Renamed(base, from, to, text, redirect, runtimeText))
  {
  }

  lemma BindNeeds(codec: Codec, s: Snapshot, draft: Profile, at: Match, id: string, profileId: string)
    requires BindPlan(codec, s, draft, at, id, profileId).Some?
    ensures InstanceRequestValid(draft, at, id, profileId) && BoundRule(s.memory.controllers, draft, at, id, profileId).Some?
    ensures var found := BoundRule(s.memory.controllers, draft, at, id, profileId).value;
      && BoundProfile(s.memory.profiles, found, draft, at, profileId).Some?
      && var profile, bound := BoundProfile(s.memory.profiles, found, draft, at, profileId).value, found.(profileId := profileId);
      var i := FindProfile(s.memory.profiles, profileId);
      && AssociationsValid(Enrol(s.memory.controllers, bound), if i < |s.memory.profiles| then s.memory.profiles[i := profile]
                                                               else s.memory.profiles + [profile])
      && Storable(Enrol(s.memory.controllers, bound))
      && codec.profileText(profile).Some? && codec.parseProfile(codec.profileText(profile).value).Some?
  {
    hide InstanceRequestValid, BoundRule, BoundProfile, AssociationsValid, Storable, Enrol, Text, ProfilePath;
  }

  lemma CreateNeeds(codec: Codec, s: Snapshot, id: string)
    requires CreatePlan(codec, s, id).Some?
    ensures ValidId(id) && |id| < ID_MAX && |s.memory.profiles| < MAX_PROFILES
    ensures FindProfile(s.memory.profiles, id) == |s.memory.profiles| && codec.profileText(codec.newProfile(id)).Some?
  {
    hide ValidId, ProfilePath;
  }

  class ConfigStore {
    const codec: Codec
    const productMode: Mode
    var disk: Disk
    var runtime: Runtime
    var profiles: seq<Profile>
    var controllers: seq<Rule>
    var generation: nat
    var policyValid: bool
    var exhausted: bool
    /** How many more requests, to the operating system or for the connection lease, will be refused. */
    var refusals: nat

    function Published(): Memory
      reads this
    {
      Memory(runtime, profiles, controllers)
    }

    function Snap(): Snapshot
      reads this
    {
      Snapshot(disk, Published(), generation, policyValid, exhausted)
    }

    predicate PolicyHeld()
      reads this
    {
      policyValid && !exhausted
    }

    /** A store before its first reload: nothing is published, so no policy is valid. */
    constructor (codec: Codec, productMode: Mode, disk: Disk, defaults: Runtime, refusals: nat)
      ensures this.codec == codec && this.productMode == productMode && this.refusals == refusals
      ensures Snap() == Snapshot(disk, Memory(defaults, [], []), 0, false, false) && Sound(Snap())
    {
      this.codec, this.productMode, this.disk, this.refusals := codec, productMode, disk, refusals;
      runtime, profiles, controllers := defaults, [], [];
      generation, policyValid, exhausted := 0, false, false;
    }

    // ---- files -------------------------------------------------------------------------------

    method Refused() returns (fault: bool)
      modifies `refusals
      ensures if fault then refusals == old(refusals) - 1 else refusals == old(refusals)
    {
      fault := *;
      if refusals == 0 { return false; }
      if fault { refusals := refusals - 1; }
    }

    method AtomicWrite(path: string, text: string) returns (ok: bool)
      modifies `disk, `refusals
      ensures disk == if ok then old(disk)[path := File(text)] else old(disk)
      ensures path in old(disk) && !Occupied(old(disk), path) ==> !ok
      ensures refusals <= old(refusals) && ((path in old(disk) ==> Occupied(old(disk), path)) ==> ok || refusals < old(refusals))
    {
      if path in disk && (disk[path].Link? || disk[path].Folder?) { return false; }
      var fault := Refused();
      if fault { return false; }
      disk := disk[path := File(text)];
      return true;
    }

    method ReadFile(path: string) returns (r: Option<string>)
      modifies `refusals
      ensures r.Some? ==> TextAt(disk, path) == r && Readable(r.value)
      ensures refusals <= old(refusals) && (ReadableAt(disk, path) ==> r.Some? || refusals < old(refusals))
    {
      var fault := Refused();
      if fault || path !in disk || !disk[path].File? { return None; }
      var text := disk[path].text;
      if |text| > FILE_MAX || '\0' in text { return None; }
      return Some(text);
    }

    /** What to restore later: the file's text, or that it was missing. */
    method SnapshotOptional(path: string) returns (ok: bool, was: Option<string>)
      modifies `refusals
      ensures ok ==> Put(disk, path, was) == disk && (was.None? <==> path !in disk)
      ensures refusals <= old(refusals) && (Ordinary(disk) ==> ok || refusals < old(refusals))
    {
      var fault := Refused();
      if fault { return false, None; }
      if path !in disk { return true, None; }
      var text := ReadFile(path);
      return text.Some?, text;
    }

    /** A restored file is read back; a missing one is no error to remove. */
    method RestoreFile(path: string, was: Option<string>) returns (ok: bool)
      modifies `disk, `refusals
      ensures disk == old(disk) || disk == Put(old(disk), path, was)
      ensures ok ==> disk == Put(old(disk), path, was)
      ensures (was.Some? ==> Readable(was.value)) && (path in old(disk) ==> old(disk)[path].File?) ==> ok || refusals < old(refusals)
      ensures refusals <= old(refusals)
    {
      if was.Some? {
        var written := AtomicWrite(path, was.value);
        if !written { return false; }
        var readBack := ReadFile(path);
        return readBack == was;
      }
      if path in disk {
        var fault := Refused();
        if fault || disk[path].Folder? { return false; }
        disk := disk - {path};
      }
      return true;
    }

    // ---- publication -------------------------------------------------------------------------

    method InvalidatePolicy()
      modifies `generation, `policyValid, `exhausted
      ensures Snap() == Invalidated(old(Snap()))
    {
      if policyValid {
        policyValid := false;
        if generation < UINT64_MAX { generation := generation + 1; }
      }
      if generation == UINT64_MAX { exhausted := true; }
    }

    method ReloadLocked() returns (ok: bool)
      requires Sound(Snap())
      modifies `runtime, `profiles, `controllers, `generation, `policyValid, `refusals
      ensures if ok then Store.Published(codec, old(Snap()), Snap(), disk) else Snap() == old(Snap())
      ensures !old(exhausted) && old(generation) < UINT64_MAX && Loadable(codec, disk) ==> ok || refusals < old(refusals)
      ensures refusals <= old(refusals)
    {
      if exhausted || generation == UINT64_MAX { return false; }
      var fault := Refused();
      if fault { return false; }
      var runtimeText := ReadFile(RUNTIME_PATH);
      if runtimeText.None? { return false; }
      var newRuntime := codec.readRuntime(runtimeText.value);
      if newRuntime.None? { return false; }
      var newProfiles := codec.readProfiles(disk);
      if newProfiles.None? { return false; }
      var rulesText := ReadFile(CONTROLLERS_PATH);
      if rulesText.None? { return false; }
      var newControllers := LoadControllers(rulesText.value);
      if newControllers.None? { return false; }
      var associated := CheckAssociations(newControllers.value, newProfiles.value);
      if !associated { return false; }
      runtime, profiles, controllers := newRuntime.value, newProfiles.value, newControllers.value;
      policyValid := true;
      generation := generation + 1;
      return true;
    }

    method Reload() returns (ok: bool)
      requires Sound(Snap())
      modifies `runtime, `profiles, `controllers, `generation, `policyValid, `exhausted, `refusals
      ensures OpStep(codec, productMode, Op.Reload, old(Snap()), Snap(), ok)
      ensures !old(exhausted) && old(generation) < UINT64_MAX && Loadable(codec, disk) ==> ok || refusals < old(refusals)
      ensures refusals <= old(refusals)
    {
      ok := ReloadLocked();
      if !ok { InvalidatePolicy(); }
    }

    /** Replace one file and publish; put the file back if the reload fails, and quarantine if that fails too. */
    method Replace(path: string, text: string) returns (ok: bool)
      requires Sound(Snap()) && Authorised(Snap())
      modifies `disk, `runtime, `profiles, `controllers, `generation, `policyValid, `exhausted, `refusals
      ensures Done(codec, old(Snap()), Snap(), Some(old(disk)[path := File(text)]), ok)
      ensures Prompt(codec, old(Snap()), Snap(), Some(old(disk)[path := File(text)]), ok, old(refusals))
    {
      hide Load, Storable, View, Done, Store.Published, Invalidated, Mixed, Put;
      ghost var base, planned := Snap(), disk[path := File(text)];
      Ended(codec, base, base, planned, false);
      var readable, was := SnapshotOptional(path);
      if !readable { return false; }
      if Ordinary(disk) { SavedReadable(disk, path, was); }
      var written := AtomicWrite(path, text);
      if !written { return false; }
      ok := ReloadLocked();
      if !ok {
        var restored := RestoreFile(path, was);
        RestoredMixed(base.disk, path, was, text, disk);
        if !restored { InvalidatePolicy(); }
      }
      Ended(codec, base, Snap(), planned, ok);
    }

    /** Publish a rule list that differs in the given rule; what was saved is what is then published. */
    method ReplaceRules(rules: seq<Rule>, rule: Rule) returns (ok: bool)
      requires Sound(Snap()) && Authorised(Snap()) && rules == Enrol(controllers, rule)
      modifies `disk, `runtime, `profiles, `controllers, `generation, `policyValid, `exhausted, `refusals
      ensures if Storable(rules) then
          Done(codec, old(Snap()), Snap(), RuleDisk(old(disk), old(Published()), Some(rule)), ok)
        else !ok && Snap() == old(Snap())
      ensures ok ==> controllers == rules
      ensures Storable(rules) ==>
        Prompt(codec, old(Snap()), Snap(), RuleDisk(old(disk), old(Published()), Some(rule)), ok, old(refusals))
    {
      hide Load, Storable, View, Text;
      var text := SerializeControllers(rules);
      SerializesIff(rules);
      if text.None? { return false; }
      TextOf(rules);
      ok := Replace(CONTROLLERS_PATH, text.value);
      if ok {
        ViewStorable(codec, disk);
        LoadSerialize(rules);
      }
    }

    /** Looks the saved rule up again under the writer lock. */
    method Readback(id: string) returns (saved: Option<Rule>, at: nat)
      ensures FindId(controllers, id) < |controllers| ==> saved == Some(controllers[FindId(controllers, id)])
      ensures saved.Some? ==> FindId(controllers, id) < |controllers|
      ensures at == generation
    {
      var i := RuleIndex(controllers, id);
      at := generation;
      saved := if i < |controllers| then Some(controllers[i]) else None;
    }

    // ---- runtime and profiles ----------------------------------------------------------------

    method SaveRuntime(wanted: Runtime) returns (ok: bool)
      requires Sound(Snap())
      modifies `disk, `runtime, `profiles, `controllers, `generation, `policyValid, `exhausted, `refusals
      ensures OpStep(codec, productMode, Op.SaveRuntime(wanted), old(Snap()), Snap(), ok)
      ensures Prompt(codec, old(Snap()), Snap(), RuntimePlan(codec, old(Snap()), wanted), ok, old(refusals))
    {
      hide Storable, View;
      var text := codec.runtimeText(wanted);
      if text.None? || !PolicyHeld() { return false; }
      var forbidden := OwnedActive(profiles, wanted.active);
      if forbidden { return false; }
      ok := Replace(RUNTIME_PATH, text.value);
    }

    method SaveProfileLocked(id: string, profile: Profile) returns (ok: bool)
      requires Sound(Snap())
      modifies `disk, `runtime, `profiles, `controllers, `generation, `policyValid, `exhausted, `refusals
      ensures Done(codec, old(Snap()), Snap(), ProfileDisk(codec, old(disk), id, profile), ok)
      ensures Prompt(codec, old(Snap()), Snap(), ProfileDisk(codec, old(disk), id, profile), ok, old(refusals))
    {
      hide Storable, View;
      if !PolicyHeld() { return false; }
      var text := codec.profileText(profile);
      if text.None? || codec.parseProfile(text.value).None? { return false; }
      ok := Replace(ProfilePath(id), text.value);
    }

    method SaveProfile(profile: Profile) returns (ok: bool)
      requires Sound(Snap())
      modifies `disk, `runtime, `profiles, `controllers, `generation, `policyValid, `exhausted, `refusals
      ensures OpStep(codec, productMode, Op.SaveProfile(profile), old(Snap()), Snap(), ok)
      ensures Prompt(codec, old(Snap()), Snap(), SaveProfilePlan(codec, old(Snap()), productMode, profile), ok, old(refusals))
    {
      hide Storable, View, MaySave, ProfileDisk;
      if !PolicyHeld() { return false; }
      var allowed := CheckMaySave(Published(), productMode, profile);
      if !allowed { return false; }
      ok := SaveProfileLocked(profile.id, profile);
    }

    method EditProfile(id: string, key: string, value: string) returns (ok: bool)
      requires Sound(Snap())
      modifies `disk, `runtime, `profiles, `controllers, `generation, `policyValid, `exhausted, `refusals
      ensures OpStep(codec, productMode, Op.EditProfile(id, key, value), old(Snap()), Snap(), ok)
      ensures Prompt(codec, old(Snap()), Snap(), EditPlan(codec, old(Snap()), productMode, id, key, value), ok, old(refusals))
    {
      hide Storable, View, ValidId, ProfileDisk;
      if !ValidId(id) || |id| >= ID_MAX || !PolicyHeld() { return false; }
      var i := ProfileIndex(profiles, id);
      if i == |profiles| { return false; }
      if Owned(profiles[i]) && productMode.Disabled? { return false; }
      var edited := codec.applyKey(profiles[i], key, value);
      if edited.None? { return false; }
      ok := SaveProfileLocked(id, edited.value);
    }

    /** Writes without looking at the old file first, so a failed reload removes whatever was there. */
    method CreateProfile(id: string) returns (ok: bool)
      requires Sound(Snap())
      modifies `disk, `runtime, `profiles, `controllers, `generation, `policyValid, `exhausted, `refusals
      ensures OpStep(codec, productMode, Op.CreateProfile(id), old(Snap()), Snap(), ok)
      ensures old(refusals) == 0 && Attainable(codec, old(Snap()), CreatePlan(codec, old(Snap()), id)) ==> ok
      ensures CreateRollsBack(codec, productMode, old(Snap()), id)
         <==> CreatePlan(codec, old(Snap()), id).None? || !old(PolicyHeld()) || !Occupied(old(disk), ProfilePath(id))
      ensures !Occupied(old(disk), ProfilePath(id)) ==>
        Done(codec, old(Snap()), Snap(), CreatePlan(codec, old(Snap()), id), ok)
      ensures ProfilePath(id) !in old(disk) ==>
        Prompt(codec, old(Snap()), Snap(), CreatePlan(codec, old(Snap()), id), ok, old(refusals))
    {
      hide Storable, View, ValidId, ProfilePath, CreateRollsBack, OpStep, Done, CreatePlan, Store.Published, Invalidated;
      ghost var s := Snap();
      NothingDone(codec, productMode, Op.CreateProfile(id), s);
      if CreatePlan(codec, s, id).Some? { CreateNeeds(codec, s, id); }
      CreateRollsBackIff(codec, productMode, Snap(), id);
      if !ValidId(id) || |id| >= ID_MAX || !PolicyHeld() || |profiles| >= MAX_PROFILES { return false; }
      var i := ProfileIndex(profiles, id);
      if i < |profiles| { return false; }
      var text := codec.profileText(codec.newProfile(id));
      if text.None? { return false; }
      var path := ProfilePath(id);
      CreatePlanIs(codec, s, id, text.value);
      ghost var planned := disk[path := File(text.value)];
      var written := AtomicWrite(path, text.value);
      if !written { return false; }
      ok := ReloadLocked();
      if !ok {
        var fault := Refused();
        if fault {
          InvalidatePolicy();
        } else {
          disk := disk - {path};
          assert disk == old(disk) - {path};
        }
        RemovedMixed(old(disk), path, text.value);
      }
      if ok || Snap() != s.(disk := s.disk - {path}) || path !in s.disk { Ended(codec, s, Snap(), planned, ok); }
      CreateStep(codec, productMode, s, Snap(), id, ok);
    }

    method RenameProfile(from: string, to: string) returns (ok: bool, committed: bool)
      requires Sound(Snap())
      modifies `disk, `runtime, `profiles, `controllers, `generation, `policyValid, `exhausted, `refusals
      ensures OpStep(codec, productMode, Op.RenameProfile(from, to), old(Snap()), Snap(), committed)
      ensures Prompt(codec, old(Snap()), Snap(), RenamePlan(codec, old(Snap()), from, to), committed, old(refusals))
      ensures committed ==> ok
      ensures ok && !committed ==> from == to && FindProfile(old(profiles), from) < |old(profiles)|
    {
      hide Storable, View, ValidId, ProfilePath, SameFold;
      if !ValidId(from) || !ValidId(to) || |from| >= ID_MAX || |to| >= ID_MAX || from == "default" || SameFold(to, "auto")
         || !PolicyHeld() {
        return false, false;
      }
      var taken := ProfileIndex(profiles, to);
      if from != to && taken < |profiles| { return false, false; }
      var i := ProfileIndex(profiles, from);
      if i == |profiles| || Owned(profiles[i]) { return false, false; }
      if from == to { return true, false; }
      var p := profiles[i];
      var text := codec.profileText(p.(id := to, name := if p.name == from then to else p.name));
      if text.None? { return false, false; }
      var redirect := runtime.active == from;
      var runtimeText := codec.runtimeText(runtime.(active := to));
      if redirect && runtimeText.None? { return false, false; }
      PathsDistinct(from, to);
      PathsDistinct(to, from);
      committed := RenameFiles(ProfilePath(from), ProfilePath(to), text.value, redirect,
                               if redirect then runtimeText.value else "");
      ok := committed;
    }

    /** The disk a rename leaves. */
    static function Renamed(disk: Disk, from: string, to: string, text: string, redirect: bool, runtimeText: string): Disk {
      (if redirect then disk[to := File(text)][RUNTIME_PATH := File(runtimeText)] else disk[to := File(text)]) - {from}
    }

    /** One restore of a rollback; failures add up. */
    method Undo(path: string, was: Option<string>, failed: bool, ghost base: Disk, ghost planned: Disk, ghost rest: set<string>)
      returns (bad: bool)
      requires Saved(base, path, was) && Undoing(base, planned, disk, rest, failed)
      modifies `disk, `refusals
      ensures Undoing(base, planned, disk, rest - {path}, bad)
      ensures refusals <= old(refusals) && (Ordinary(base) && AllFiles(planned) ==> bad == failed || refusals < old(refusals))
    {
      hide Put, Mixed, Held, Ordinary, AllFiles;
      ghost var now := disk;
      if Ordinary(base) && AllFiles(planned) { UndoClear(base, planned, now, rest, failed, path, was); }
      var restored := RestoreFile(path, was);
      bad := failed || !restored;
      UndoKeeps(base, planned, now, rest, failed, path, was);
    }

    method RenameFiles(from: string, to: string, text: string, redirect: bool, runtimeText: string) returns (ok: bool)
      requires Sound(Snap()) && Authorised(Snap()) && from != to && RUNTIME_PATH !in {from, to}
      modifies `disk, `runtime, `profiles, `controllers, `generation, `policyValid, `exhausted, `refusals
      ensures Done(codec, old(Snap()), Snap(), Some(Renamed(old(disk), from, to, text, redirect, runtimeText)), ok)
      ensures TextAt(old(disk), from).None? || to in old(disk) ==> !ok && Snap() == old(Snap())
      ensures var plan := Some(Renamed(old(disk), from, to, text, redirect, runtimeText));
        TextAt(old(disk), from).Some? && to !in old(disk) ==> Prompt(codec, old(Snap()), Snap(), plan, ok, old(refusals))
    {
      hide Storable, View, Mixed, Done, Store.Published, Invalidated, PartlyWritten, Ordinary, AllFiles, Occupied, Loadable;
      ghost var s, base, planned := Snap(), disk, Renamed(disk, from, to, text, redirect, runtimeText);
      if Ordinary(base) { RenameOpen(base, from, to, text, redirect, runtimeText); }
      Ended(codec, s, s, planned, false);
      var fromRead, fromWas := SnapshotOptional(from);
      if !fromRead || fromWas.None? { return false; }
      var toRead, toWas := SnapshotOptional(to);
      if !toRead || toWas.Some? { return false; }
      var runtimeWas := None;
      if redirect {
        var runtimeRead;
        runtimeRead, runtimeWas := SnapshotOptional(RUNTIME_PATH);
        if !runtimeRead { return false; }
      }
      ok := AtomicWrite(to, text);
      if ok && redirect { ok := AtomicWrite(RUNTIME_PATH, runtimeText); }
      if ok {
        var fault := Refused();
        if fault {
          ok := false;
        } else {
          disk := disk - {from};
          ok := ReloadLocked();
        }
      }
      if !ok {
        RenameWritten(base, from, to, text, redirect, runtimeText, disk);
        var bad := RenameBack(from, fromWas, to, toWas, redirect, runtimeWas, base, planned);
        if bad { InvalidatePolicy(); }
      }
      Ended(codec, s, Snap(), planned, ok);
    }

    method RenameBack(from: string, fromWas: Option<string>, to: string, toWas: Option<string>, redirect: bool,
                      runtimeWas: Option<string>, ghost base: Disk, ghost planned: Disk)
      returns (bad: bool)
      requires Saved(base, from, fromWas) && Saved(base, to, toWas) && (redirect ==> Saved(base, RUNTIME_PATH, runtimeWas))
      requires PartlyWritten(base, planned, disk, {from, to} + if redirect then {RUNTIME_PATH} else {})
      modifies `disk, `refusals
      ensures Mixed(base, planned, disk) && (!bad ==> disk == base)
      ensures refusals <= old(refusals) && (Ordinary(base) && AllFiles(planned) ==> !bad || refusals < old(refusals))
    {
      hide Put, Held;
      ghost var all := {from, to} + (if redirect then {RUNTIME_PATH} else {});
      assert Undoing(base, planned, disk, all, false);
      bad := Undo(from, fromWas, false, base, planned, all);
      bad := Undo(to, toWas, bad, base, planned, all - {from});
      ghost var rest := all - {from} - {to};
      if redirect {
        bad := Undo(RUNTIME_PATH, runtimeWas, bad, base, planned, rest);
        rest := rest - {RUNTIME_PATH};
      }
      assert rest == {};
      if !bad { Undone(base, planned, disk); }
    }

    // ---- controller rules --------------------------------------------------------------------

    /** Creates, or changes within its identity, the rule of one physical controller. */
    method MutateInstanceHeld(intent: Intent) returns (ok: bool, saved: Option<Rule>, at: nat)
      requires Sound(Snap())
      modifies `disk, `runtime, `profiles, `controllers, `generation, `policyValid, `exhausted, `refusals
      ensures Done(codec, old(Snap()), Snap(),
                   RuleDisk(old(disk), old(Published()), InstancePlan(old(Published()), productMode, intent)), ok)
      ensures ok ==> saved == InstancePlan(old(Published()), productMode, intent) && at == generation
      ensures ok ==> controllers == Enrol(old(controllers), saved.value)
      ensures !ok ==> saved.None?
      ensures var plan := RuleDisk(old(disk), old(Published()), InstancePlan(old(Published()), productMode, intent));
        Prompt(codec, old(Snap()), Snap(), plan, ok, old(refusals))
    {
      hide Storable, View, IntentValid, Merged, AssociationsValid, Text;
      at := 0;
      if !IntentValid(intent) || !PolicyHeld() || productMode.Disabled? { return false, None, 0; }
      var index := RuleIndex(controllers, intent.rule.id);
      var merged := intent.rule;
      if index == |controllers| {
        if !intent.mode.Full? || intent.rule.profileId != "" || index >= MAX_RULES { return false, None, 0; }
      } else {
        var changed := Merged(controllers[index], intent);
        if changed.None? { return false, None, 0; }
        merged := changed.value;
        MergedEvolves(controllers[index], intent);
      }
      var rules := if index < |controllers| then controllers[index := merged] else controllers + [merged];
      assert rules == Enrol(controllers, merged);
      var associated := CheckAssociations(rules, profiles);
      if !associated { return false, None, 0; }
      ok := ReplaceRules(rules, merged);
      saved := None;
      if ok {
        EnrolFinds(old(controllers), merged);
        saved, at := Readback(merged.id);
      }
    }

    /** Saves a rule for every controller of a product. */
    method SaveModelHeld(rule: Rule, preserve: bool) returns (ok: bool, saved: Option<Rule>, at: nat)
      requires Sound(Snap()) && Authorised(Snap())
      modifies `disk, `runtime, `profiles, `controllers, `generation, `policyValid, `exhausted, `refusals
      ensures Done(codec, old(Snap()), Snap(),
                   RuleDisk(old(disk), old(Published()), ModelPlan(old(Published()), rule, preserve)), ok)
      ensures ok ==> saved == ModelPlan(old(Published()), rule, preserve) && at == generation
      ensures ok ==> controllers == Enrol(old(controllers), saved.value)
      ensures !ok ==> saved.None?
      ensures var plan := RuleDisk(old(disk), old(Published()), ModelPlan(old(Published()), rule, preserve));
        Prompt(codec, old(Snap()), Snap(), plan, ok, old(refusals))
    {
      hide Storable, View, Text;
      at := 0;
      var index := RuleIndex(controllers, rule.id);
      if index < |controllers| && (controllers[index].vid != rule.vid || controllers[index].pid != rule.pid) {
        return false, None, 0;
      }
      var merged := rule;
      if preserve && index < |controllers| { merged := merged.(outputType := controllers[index].outputType); }
      if index == |controllers| && index >= MAX_RULES { return false, None, 0; }
      var rules := if index < |controllers| then controllers[index := merged] else controllers + [merged];
      assert rules == Enrol(controllers, merged);
      ok := ReplaceRules(rules, merged);
      saved := None;
      if ok {
        EnrolFinds(old(controllers), merged);
        saved, at := Readback(merged.id);
      }
    }

    /** What is returned is what was planned and is now published: the readback cannot fail. */
    method SaveController(rule: Rule, preserve: bool) returns (ok: bool, saved: Option<Rule>, at: nat)
      requires Sound(Snap())
      modifies `disk, `runtime, `profiles, `controllers, `generation, `policyValid, `exhausted, `refusals
      ensures OpStep(codec, productMode, Op.SaveController(rule, preserve), old(Snap()), Snap(), ok)
      ensures Prompt(codec, old(Snap()), Snap(), RuleDisk(old(disk), old(Published()), SavePlan(old(Published()), productMode, rule, preserve)), ok, old(refusals))
      ensures ok ==> saved == SavePlan(old(Published()), productMode, rule, preserve) && at == generation
      ensures ok ==> controllers == Enrol(old(controllers), saved.value)
    {
      hide Storable, View, Valid, InstancePlan, ModelPlan, Text, Enrol;
      if !Valid(rule) || !PolicyHeld() { return false, None, 0; }
      var index := RuleIndex(controllers, rule.id);
      if rule.instanceId != "" || (index < |controllers| && controllers[index].instanceId != "") {
        var intent := Intent(if rule.instanceId != "" then Full else if preserve then Legacy10 else Legacy11, !preserve, rule);
        if intent.mode.Full? {
          intent := intent.(outputPresent := true);
          if preserve && index < |controllers| {
            intent := intent.(rule := rule.(outputType := controllers[index].outputType));
          }
        } else if preserve {
          intent := intent.(rule := rule.(outputType := 0));
        }
        assert intent == SaveIntent(Published(), rule, preserve);
        ok, saved, at := MutateInstanceHeld(intent);
      } else {
        ok, saved, at := SaveModelHeld(rule, preserve);
      }
    }

    method SetControllerOutput(id: string, outputType: int) returns (ok: bool, saved: Option<Rule>, at: nat)
      requires Sound(Snap())
      modifies `disk, `runtime, `profiles, `controllers, `generation, `policyValid, `exhausted, `refusals
      ensures OpStep(codec, productMode, Op.SetControllerOutput(id, outputType), old(Snap()), Snap(), ok)
      ensures Prompt(codec, old(Snap()), Snap(), RuleDisk(old(disk), old(Published()), OutputPlan(old(Published()), productMode, id, outputType)), ok, old(refusals))
      ensures ok ==> saved == OutputPlan(old(Published()), productMode, id, outputType) && at == generation
      ensures ok ==> controllers == Enrol(old(controllers), saved.value)
    {
      hide Storable, View, ValidId, InstancePlan, SavePlan, Text, Enrol;
      if !ValidId(id) || |id| >= ID_MAX || OutputName(outputType).None? { return false, None, 0; }
      var rule, _ := Readback(id);
      if rule.None? { return false, None, 0; }
      if rule.value.instanceId != "" {
        ok, saved, at := MutateInstanceHeld(Intent(OutputSet, true, BlankRule(id).(outputType := outputType)));
      } else {
        ok, saved, at := SaveController(rule.value.(outputType := outputType), false);
      }
    }

    method MutateInstance(intent: Intent) returns (ok: bool, saved: Option<Rule>, at: nat)
      requires Sound(Snap())
      modifies `disk, `runtime, `profiles, `controllers, `generation, `policyValid, `exhausted, `refusals
      ensures OpStep(codec, productMode, Op.MutateInstance(intent), old(Snap()), Snap(), ok)
      ensures Prompt(codec, old(Snap()), Snap(), RuleDisk(old(disk), old(Published()), InstancePlan(old(Published()), productMode, intent)), ok, old(refusals))
      ensures ok ==> saved == InstancePlan(old(Published()), productMode, intent) && at == generation
      ensures ok ==> controllers == Enrol(old(controllers), saved.value)
    {
      hide Storable, View, InstancePlan, Text, Enrol;
      ok, saved, at := MutateInstanceHeld(intent);
    }

    /** Routed by the rule published under the id; the scope is reported also when the call then fails. */
    method MutateCompat(intent: Intent) returns (ok: bool, scope: Scope, saved: Option<Rule>, at: nat)
      requires Sound(Snap())
      modifies `disk, `runtime, `profiles, `controllers, `generation, `policyValid, `exhausted, `refusals
      ensures OpStep(codec, productMode, Op.MutateCompat(intent), old(Snap()), Snap(), ok)
      ensures Prompt(codec, old(Snap()), Snap(), RuleDisk(old(disk), old(Published()), CompatPlan(old(Published()), productMode, intent)), ok, old(refusals))
      ensures ok ==> saved == CompatPlan(old(Published()), productMode, intent) && at == generation
      ensures ok ==> controllers == Enrol(old(controllers), saved.value)
      ensures ok ==> scope == if saved.value.instanceId != "" then InstanceScope else ModelScope
    {
      hide Storable, View, ValidId, InstancePlan, ModelPlan, CompatValid, Text, Enrol;
      scope := NoScope;
      if intent.mode.Full? || !ValidId(intent.rule.id) || |intent.rule.id| >= ID_MAX { return false, scope, None, 0; }
      var index := RuleIndex(controllers, intent.rule.id);
      var found := index < |controllers|;
      if found {
        scope := if controllers[index].instanceId != "" then InstanceScope else ModelScope;
      } else if !intent.mode.OutputSet? {
        scope := ModelScope;
      }
      if !CompatValid(intent) || (!found && intent.mode.OutputSet?) || !PolicyHeld() { return false, scope, None, 0; }
      if scope.InstanceScope? {
        ScopeKept(Published(), productMode, intent);
        ok, saved, at := MutateInstanceHeld(intent);
      } else {
        var merged := intent.rule;
        if intent.mode.OutputSet? {
          merged := controllers[index].(outputType := intent.rule.outputType);
        } else if intent.mode.Legacy9? {
          merged := merged.(interfaceNumber := -1);
        }
        CompatModel(intent);
        ModelScopeKept(Published(), merged, intent.mode.Legacy9? || intent.mode.Legacy10?);
        ok, saved, at := SaveModelHeld(merged, intent.mode.Legacy9? || intent.mode.Legacy10?);
      }
    }

    // ---- guided setup ------------------------------------------------------------------------

    /** Profile, rules and runtime written together, with one publication for all three. */
    method SaveSetupLocked(profile: Profile, rule: Rule) returns (ok: bool)
      requires Sound(Snap())
      modifies `disk, `runtime, `profiles, `controllers, `generation, `policyValid, `exhausted, `refusals
      ensures Done(codec, old(Snap()), Snap(), SetupPlan(codec, old(Snap()), profile, rule), ok)
      ensures Prompt(codec, old(Snap()), Snap(), SetupPlan(codec, old(Snap()), profile, rule), ok, old(refusals))
      ensures ok ==> controllers == Enrol(old(controllers), rule)
    {
      hide Storable, View, Valid, ProfileFits, ProfilePath, Text, Load, Serialize, Mixed;
      if !Valid(rule) || !PolicyHeld() || Owned(profile) || rule.instanceId != "" { return false; }
      var profileText := codec.profileText(profile);
      if profileText.None? { return false; }
      var fits := CheckProfileFits(profiles, profile);
      if !fits { return false; }
      var runtimeText := codec.runtimeText(runtime.(active := "auto"));
      if runtimeText.None? { return false; }
      var index := RuleIndex(controllers, rule.id);
      if index < |controllers| && (controllers[index].instanceId != "" || controllers[index].vid != rule.vid
                                   || controllers[index].pid != rule.pid) {
        return false;
      }
      if index == |controllers| && index >= MAX_RULES { return false; }
      var rules := if index < |controllers| then controllers[index := rule] else controllers + [rule];
      assert rules == Enrol(controllers, rule);
      var rulesText := SerializeControllers(rules);
      SerializesIff(rules);
      if rulesText.None? { return false; }
      TextOf(rules);
      PathsDistinct(profile.id, profile.id);
      ok := ReplaceThree(ProfilePath(profile.id), profileText.value, rulesText.value, runtimeText.value);
      if ok {
        PublishedRules(codec, disk, rules);
      }
    }

    /** The three writes, up to the first that fails. */
    method WriteThree(profilePath: string, profileText: string, rulesText: string, runtimeText: string)
      returns (profileChanged: bool, rulesChanged: bool, runtimeChanged: bool)
      modifies `disk, `refusals
      ensures (runtimeChanged ==> rulesChanged) && (rulesChanged ==> profileChanged)
      ensures var a := if profileChanged then old(disk)[profilePath := File(profileText)] else old(disk);
        var b := if rulesChanged then a[CONTROLLERS_PATH := File(rulesText)] else a;
        disk == if runtimeChanged then b[RUNTIME_PATH := File(runtimeText)] else b
      ensures refusals <= old(refusals) && (Ordinary(old(disk)) ==> runtimeChanged || refusals < old(refusals))
    {
      hide Ordinary, AllFiles, Occupied;
      if Ordinary(disk) { ThreeOpen(disk, profilePath, profileText, CONTROLLERS_PATH, rulesText, RUNTIME_PATH, runtimeText); }
      rulesChanged, runtimeChanged := false, false;
      profileChanged := AtomicWrite(profilePath, profileText);
      if profileChanged { rulesChanged := AtomicWrite(CONTROLLERS_PATH, rulesText); }
      if rulesChanged { runtimeChanged := AtomicWrite(RUNTIME_PATH, runtimeText); }
    }

    method ReplaceThree(profilePath: string, profileText: string, rulesText: string, runtimeText: string) returns (ok: bool)
      requires Sound(Snap()) && Authorised(Snap()) && profilePath !in {CONTROLLERS_PATH, RUNTIME_PATH} && CONTROLLERS_PATH != RUNTIME_PATH
      modifies `disk, `runtime, `profiles, `controllers, `generation, `policyValid, `exhausted, `refusals
      ensures Done(codec, old(Snap()), Snap(),
                   Some(old(disk)[profilePath := File(profileText)][CONTROLLERS_PATH := File(rulesText)][RUNTIME_PATH := File(runtimeText)]), ok)
      ensures var plan := Some(old(disk)[profilePath := File(profileText)][CONTROLLERS_PATH := File(rulesText)][RUNTIME_PATH := File(runtimeText)]);
        Prompt(codec, old(Snap()), Snap(), plan, ok, old(refusals))
    {
      hide Storable, View, Mixed, Put, Done, Store.Published, Invalidated, PartlyWritten, Ordinary, AllFiles, Occupied, Loadable;
      ghost var s := Snap();
      ghost var base := disk;
      if Ordinary(base) { ThreeOpen(base, profilePath, profileText, CONTROLLERS_PATH, rulesText, RUNTIME_PATH, runtimeText); }
      ghost var planned := disk[profilePath := File(profileText)][CONTROLLERS_PATH := File(rulesText)][RUNTIME_PATH := File(runtimeText)];
      Ended(codec, s, s, planned, false);
      var profileRead, profileWas := SnapshotOptional(profilePath);
      if !profileRead { return false; }
      var rulesRead, rulesWas := SnapshotOptional(CONTROLLERS_PATH);
      if !rulesRead { return false; }
      var runtimeRead, runtimeWas := SnapshotOptional(RUNTIME_PATH);
      if !runtimeRead { return false; }
      var profileChanged, rulesChanged, runtimeChanged := WriteThree(profilePath, profileText, rulesText, runtimeText);
      ghost var now := disk;
      ok := false;
      if runtimeChanged { ok := ReloadLocked(); }
      if !ok {
        ThreeWritten(base, profilePath, profileText, rulesText, runtimeText, profileChanged, rulesChanged, runtimeChanged, now);
        var bad := RollBackThree(profilePath, profileWas, profileChanged, rulesWas, rulesChanged, runtimeWas, runtimeChanged, base, planned);
        if bad { InvalidatePolicy(); }
      }
      Ended(codec, s, Snap(), planned, ok);
    }

    /** Undoes only what was written, last file first. */
    method RollBackThree(profilePath: string, profileWas: Option<string>, profileChanged: bool, rulesWas: Option<string>,
                         rulesChanged: bool, runtimeWas: Option<string>, runtimeChanged: bool,
                         ghost base: Disk, ghost planned: Disk)
      returns (bad: bool)
      requires Saved(base, profilePath, profileWas) && Saved(base, CONTROLLERS_PATH, rulesWas)
      requires runtimeChanged ==> Saved(base, RUNTIME_PATH, runtimeWas)
      requires PartlyWritten(base, planned, disk, Changed(profilePath, profileChanged)
                 + Changed(CONTROLLERS_PATH, rulesChanged) + Changed(RUNTIME_PATH, runtimeChanged))
      modifies `disk, `refusals
      ensures Mixed(base, planned, disk) && (!bad ==> disk == base)
      ensures refusals <= old(refusals) && (Ordinary(base) && AllFiles(planned) ==> !bad || refusals < old(refusals))
    {
      hide Put, Held;
      ghost var rest := Changed(profilePath, profileChanged) + Changed(CONTROLLERS_PATH, rulesChanged)
                      + Changed(RUNTIME_PATH, runtimeChanged);
      assert Undoing(base, planned, disk, rest, false);
      bad := false;
      if runtimeChanged {
        bad := Undo(RUNTIME_PATH, runtimeWas, bad, base, planned, rest);
        rest := rest - {RUNTIME_PATH};
      }
      if rulesChanged {
        bad := Undo(CONTROLLERS_PATH, rulesWas, bad, base, planned, rest);
        rest := rest - {CONTROLLERS_PATH};
      }
      if profileChanged {
        bad := Undo(profilePath, profileWas, bad, base, planned, rest);
        rest := rest - {profilePath};
      }
      assert rest == {};
      if !bad { Undone(base, planned, disk); }
    }

    method SaveSetup(profile: Profile, rule: Rule) returns (ok: bool)
      requires Sound(Snap())
      modifies `disk, `runtime, `profiles, `controllers, `generation, `policyValid, `exhausted, `refusals
      ensures OpStep(codec, productMode, Op.SaveSetup(profile, rule), old(Snap()), Snap(), ok)
      ensures Prompt(codec, old(Snap()), Snap(), SetupPlan(codec, old(Snap()), profile, rule), ok, old(refusals))
    {
      hide Storable, View, SetupPlan;
      ok := SaveSetupLocked(profile, rule);
    }

    /** Setup for whichever rule the product already has; the guard is the connection lease, which may be refused. */
    method SaveSetupPreserving(profile: Profile) returns (ok: bool, saved: Option<Rule>, at: nat)
      requires Sound(Snap())
      modifies `disk, `runtime, `profiles, `controllers, `generation, `policyValid, `exhausted, `refusals
      ensures OpStep(codec, productMode, Op.SaveSetupPreserving(profile), old(Snap()), Snap(), ok)
      ensures Prompt(codec, old(Snap()), Snap(), PreservingPlan(codec, old(Snap()), profile), ok, old(refusals))
      ensures ok ==> saved == Some(PreservedRule(old(controllers), profile)) && at == generation
    {
      hide Storable, View, SetupPlan;
      if profile.matchAnyVid || profile.matchAnyPid || profile.matchVid == 0 || !PolicyHeld() { return false, None, 0; }
      var refused := Refused();
      if refused { return false, None, 0; }
      var i := 0;
      while i < |controllers| && !(controllers[i].instanceId == "" && controllers[i].vid == profile.matchVid
                                   && controllers[i].pid == profile.matchPid)
        invariant Snap() == old(Snap()) && i <= |controllers|
        invariant forall j :: 0 <= j < i ==> !(controllers[j].instanceId == "" && controllers[j].vid == profile.matchVid
                                               && controllers[j].pid == profile.matchPid)
      {
        i := i + 1;
      }
      assert i == FindModel(controllers, profile.matchVid, profile.matchPid);
      var rule := if i < |controllers| then controllers[i]
        else Rule(profile.id, if profile.name != "" then profile.name else profile.id, 1, 0, profile.matchVid, profile.matchPid,
                  profile.protocol, 0, 0, -1, 0, "", "");
      ok := SaveSetupLocked(profile, rule);
      saved, at := None, 0;
      if ok {
        EnrolFinds(old(controllers), rule);
        saved, at := Readback(rule.id);
      }
    }

    /** Binds a profile to one physical controller: rule and owned profile are written and published together. The
        profile's own readback can fail after the commit, so `ok` and `committed` differ. */
    method SaveSetupForController(draft: Profile, match_: Match, id: string, profileId: string)
      returns (ok: bool, committed: bool, rule: Option<Rule>, at: nat)
      requires Sound(Snap())
      modifies `disk, `runtime, `profiles, `controllers, `generation, `policyValid, `exhausted, `refusals
      ensures OpStep(codec, productMode, Op.SaveSetupForController(draft, match_, id, profileId), old(Snap()), Snap(), committed)
      ensures var plan := BindPlan(codec, old(Snap()), draft, match_, id, profileId);
        productMode.Live? ==> Prompt(codec, old(Snap()), Snap(), plan, committed, old(refusals))
      ensures ok ==> committed && rule.Some? && at == generation
      ensures ok ==> rule.value.id == id && rule.value.profileId == profileId && rule.value in controllers
      ensures ok ==> exists p :: p in profiles && p.id == profileId
    {
      hide Storable, View, InstanceRequestValid, BoundRule, BoundProfile, AssociationsValid, Text, Load, ProfilePath, Enrol,
           OpStep, Done, BindPlan, BindingOf, FindId, FindProfile, TextAt, Sound, Invalidated, Store.Published;
      ghost var s, op := Snap(), Op.SaveSetupForController(draft, match_, id, profileId);
      NothingDone(codec, productMode, op, s);
      if BindPlan(codec, s, draft, match_, id, profileId).Some? { BindNeeds(codec, s, draft, match_, id, profileId); }
      ok, committed, rule, at := false, false, None, 0;
      if !InstanceRequestValid(draft, match_, id, profileId) || !PolicyHeld() || !productMode.Live? { return; }
      var refused := Refused();
      if refused { return; }
      var found := BoundRule(controllers, draft, match_, id, profileId);
      if found.None? { return; }
      var profile := BoundProfile(profiles, found.value, draft, match_, profileId);
      if profile.None? { return; }
      var bound := found.value.(profileId := profileId);
      BoundRuleId(controllers, draft, match_, id, profileId);
      var rules := Enrol(controllers, bound);
      var i := ProfileIndex(profiles, profileId);
      var associated := CheckAssociations(rules, if i < |profiles| then profiles[i := profile.value] else profiles + [profile.value]);
      if !associated { return; }
      var profileText := codec.profileText(profile.value);
      if profileText.None? { return; }
      var parsed := codec.parseProfile(profileText.value);
      if parsed.None? { return; }
      var rulesText := SerializeControllers(rules);
      SerializesIff(rules);
      if rulesText.None? { return; }
      TextOf(rules);
      PathsDistinct(profileId, profileId);
      BindPlanIs(codec, s, draft, match_, id, profileId, bound, profile.value, profileText.value);
      committed := ReplaceTwo(ProfilePath(profileId), profileText.value, rulesText.value);
      BindStep(codec, productMode, s, Snap(), draft, match_, id, profileId, committed);
      if committed {
        BoundPublished(codec, s, Snap(), ProfilePath(profileId), profileText.value, rules);
        EnrolFinds(old(controllers), bound);
        rule, at := Readback(id);
        assert controllers[FindId(controllers, id)] in controllers;
        var j := ProfileIndex(profiles, profileId);
        ok := j < |profiles| && profiles[j] == parsed.value;
        if ok { assert profiles[j] in profiles; }
      }
    }

    method ReplaceTwo(profilePath: string, profileText: string, rulesText: string) returns (ok: bool)
      requires Sound(Snap()) && Authorised(Snap()) && profilePath !in {CONTROLLERS_PATH, RUNTIME_PATH}
      modifies `disk, `runtime, `profiles, `controllers, `generation, `policyValid, `exhausted, `refusals
      ensures Done(codec, old(Snap()), Snap(),
                   Some(old(disk)[profilePath := File(profileText)][CONTROLLERS_PATH := File(rulesText)]), ok)
      ensures var plan := Some(old(disk)[profilePath := File(profileText)][CONTROLLERS_PATH := File(rulesText)]);
        Prompt(codec, old(Snap()), Snap(), plan, ok, old(refusals))
    {
      hide Storable, View, Mixed, Put, Done, Store.Published, Invalidated, Ordinary, AllFiles, Occupied, Loadable;
      ghost var s := Snap();
      ghost var base, planned := disk, disk[profilePath := File(profileText)][CONTROLLERS_PATH := File(rulesText)];
      if Ordinary(base) { ThreeOpen(base, profilePath, profileText, CONTROLLERS_PATH, rulesText, RUNTIME_PATH, ""); }
      Ended(codec, s, s, planned, false);
      var profileRead, profileWas := SnapshotOptional(profilePath);
      if !profileRead { return false; }
      var rulesRead, rulesWas := SnapshotOptional(CONTROLLERS_PATH);
      if !rulesRead { return false; }
      var profileChanged := AtomicWrite(profilePath, profileText);
      if !profileChanged { return false; }
      var rulesChanged := AtomicWrite(CONTROLLERS_PATH, rulesText);
      ok := false;
      if rulesChanged { ok := ReloadLocked(); }
      if !ok {
        var bad := RollBackThree(profilePath, profileWas, true, rulesWas, rulesChanged, None, false, base, planned);
        if bad { InvalidatePolicy(); }
      }
      Ended(codec, s, Snap(), planned, ok);
    }
  }

  datatype Scope = NoScope | ModelScope | InstanceScope

  lemma EnrolFinds(rules: seq<Rule>, rule: Rule)
    ensures var i := FindId(Enrol(rules, rule), rule.id); i < |Enrol(rules, rule)| && Enrol(rules, rule)[i] == rule
  {
    var i, b := FindId(rules, rule.id), Enrol(rules, rule);
    assert b[i] == rule;
    assert forall j :: 0 <= j < i ==> b[j] == rules[j];
    FindIdIs(b, rule.id, i);
  }

  /** What a published disk with these rules' text holds in memory. */
  lemma PublishedRules(codec: Codec, disk: Disk, rules: seq<Rule>)
    requires Storable(rules) && TextAt(disk, CONTROLLERS_PATH) == Some(Text(rules)) && View(codec, disk).Some?
    ensures View(codec, disk).value.controllers == rules
  {
    hide Load, Text, Storable, AssociationsValid;
    LoadSerialize(rules);
    ViewStorable(codec, disk);
  }

  lemma BoundRuleId(rules: seq<Rule>, draft: Profile, at: Match, id: string, profileId: string)
    requires BoundRule(rules, draft, at, id, profileId).Some?
    ensures BoundRule(rules, draft, at, id, profileId).value.id == id
  {
  }

  lemma ScopeKept(m: Memory, mode: Mode, n: Intent)
    ensures InstancePlan(m, mode, n).Some? ==> InstancePlan(m, mode, n).value.instanceId != ""
  {
    hide Storable, AssociationsValid, Enrol, Valid, ValidId;
  }

  lemma CompatModel(n: Intent)
    requires CompatValid(n)
    ensures n.rule.instanceId == ""
  {
  }

  lemma ModelScopeKept(m: Memory, rule: Rule, preserve: bool)
    requires rule.instanceId == ""
    ensures ModelPlan(m, rule, preserve).Some? ==> ModelPlan(m, rule, preserve).value.instanceId == ""
  {
    hide Storable, Enrol;
  }

  lemma UndoKeeps(base: Disk, planned: Disk, now: Disk, rest: set<string>, failed: bool, path: string, was: Option<string>)
    requires Saved(base, path, was) && Undoing(base, planned, now, rest, failed)
    ensures Undoing(base, planned, now, rest - {path}, true)
    ensures Undoing(base, planned, Put(now, path, was), rest - {path}, failed)
    ensures Undoing(base, planned, Put(now, path, was), rest - {path}, true)
  {
    hide Put, Held;
    PutHeld(base, now, path, was);
    var next := Put(now, path, was);
    forall q ensures Held(next, q) == Held(base, q) || Held(next, q) == Held(planned, q) {
      if q != path { assert Held(now, q) == Held(base, q) || Held(now, q) == Held(planned, q); }
    }
  }

  lemma TextOf(rules: seq<Rule>)
    requires Storable(rules)
    ensures Serialize(rules) == Some(Text(rules))
  {
    SerializesIff(rules);
  }

  /** After its first successful reload a store is in step with its files. */
  lemma OpenedTracked(codec: Codec, s: Snapshot, t: Snapshot)
    requires Store.Published(codec, s, t, s.disk)
    ensures Tracked(t)
  {
    hide Load, Storable, View, AssociationsValid;
    ViewStorable(codec, t.disk);
    ContinuesSelf(t.memory.controllers);
  }
}
