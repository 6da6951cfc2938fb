/** Which rule and profile govern a connected controller. The decision is made on one snapshot, and fails closed:
    while any rule names a single controller of the product, only a proven identity gets a rule at all. */
module Resolver {
  import opened Controllers
  import opened Profiles
  import opened Store
  import opened StoreRuns
  import opened Wrappers

  datatype Kind =
    | NoRule | Model | Instance | Veto | IdentityUnavailable | IdentityCollision | BindingMismatch | ProfileUnavailable
    | PolicyUnavailable

  datatype Resolution = Resolution(kind: Kind, rule: Option<Rule>, profile: Option<Profile>, generation: nat)

  predicate ForProduct(r: Rule, at: Match) { r.vid == at.vid && r.pid == at.pid }

  predicate IsModel(r: Rule, at: Match) { ForProduct(r, at) && r.instanceId == "" }

  predicate IsExact(r: Rule, at: Match) {
    ForProduct(r, at) && r.instanceId != "" && at.identity.Stable? && r.instanceId == at.instanceId
  }

  /** Some rule singles out one controller of the product. */
  predicate Overridden(rules: seq<Rule>, at: Match) {
    exists i :: 0 <= i < |rules| && ForProduct(rules[i], at) && rules[i].instanceId != ""
  }

  /** The last model rule and the last exact rule for the product. */
  function LastModel(rules: seq<Rule>, at: Match): (r: Option<Rule>)
    ensures r.Some? <==> exists i :: 0 <= i < |rules| && IsModel(rules[i], at)
    ensures r.Some? ==> r.value in rules && IsModel(r.value, at)
  {
    if rules == [] then None
    else if IsModel(rules[|rules| - 1], at) then Some(rules[|rules| - 1])
    else LastModel(rules[..|rules| - 1], at)
  }

  function LastExact(rules: seq<Rule>, at: Match): (r: Option<Rule>)
    ensures r.Some? <==> exists i :: 0 <= i < |rules| && IsExact(rules[i], at)
    ensures r.Some? ==> r.value in rules && IsExact(r.value, at)
  {
    if rules == [] then None
    else if IsExact(rules[|rules| - 1], at) then Some(rules[|rules| - 1])
    else LastExact(rules[..|rules| - 1], at)
  }

  predicate ServesInstance(p: Profile, rule: Rule, at: Match) {
    && p.enabled && p.ownerController == rule.id && p.ownerInstance == rule.instanceId && !p.matchAnyVid && !p.matchAnyPid
    && p.matchVid == at.vid && p.matchPid == at.pid && SameProtocol(p.protocol, at.protocol)
  }

  /** The first of the best-scoring profiles. */
  function Best(profiles: seq<Profile>, at: Match): (r: Option<Profile>)
    ensures r.Some? ==> r.value in profiles && MatchScore(r.value, at.vid, at.pid, at.protocol) >= 0
    ensures forall p :: p in profiles ==>
      MatchScore(p, at.vid, at.pid, at.protocol)
        <= if r.Some? then MatchScore(r.value, at.vid, at.pid, at.protocol) else -1
  {
    if profiles == [] then None
    else
      var front, last := Best(profiles[..|profiles| - 1], at), profiles[|profiles| - 1];
      var best := if front.Some? then MatchScore(front.value, at.vid, at.pid, at.protocol) else -1;
      if MatchScore(last, at.vid, at.pid, at.protocol) > best then Some(last) else front
  }

  /** The named active profile, if it may be shared, or the best match. */
  function Shared(active: string, profiles: seq<Profile>, at: Match): (r: Option<Profile>)
    ensures r.Some? ==> r.value.enabled && !Owned(r.value) && r.value in profiles
  {
    if SameFold(active, "auto") then Best(profiles, at) else Named(profiles, active)
  }

  function Named(profiles: seq<Profile>, id: string): (r: Option<Profile>)
    ensures r.Some? ==> r.value.enabled && !Owned(r.value) && r.value.id == id && r.value in profiles
  {
    if profiles == [] then None
    else if profiles[0].id == id && profiles[0].enabled && !Owned(profiles[0]) then Some(profiles[0])
    else Named(profiles[1..], id)
  }

  /** The decision, or None for a malformed request. */
  function Resolve(s: Snapshot, mode: Mode, at: Match): Option<Resolution> {
    var m, none := s.memory, Resolution(NoRule, None, None, s.generation);
    if !MatchValid(at) then None
    else if !Authorised(s) then Some(none.(kind := PolicyUnavailable))
    else if at.identity.Collision? then Some(none.(kind := IdentityCollision))
    else if Overridden(m.controllers, at) && !at.identity.Stable? then Some(none.(kind := IdentityUnavailable))
    else
      var exact := LastExact(m.controllers, at);
      if exact.Some? && !mode.Live? then Some(none.(kind := PolicyUnavailable))
      else
        var rule := if exact.Some? then exact else LastModel(m.controllers, at);
        if rule.Some? && (rule.value.enabled == 0 || rule.value.ignored != 0) then Some(none.(kind := Veto, rule := rule))
        else if rule.Some? && !Binds(rule.value, at) then Some(none.(kind := BindingMismatch, rule := rule))
        else if exact.Some? then Some(InstanceResolution(m.profiles, exact.value, at, s.generation))
        else Some(Resolution(if rule.Some? then Model else NoRule, rule, Shared(m.runtime.active, m.profiles, at), s.generation))
  }

  function InstanceResolution(profiles: seq<Profile>, rule: Rule, at: Match, generation: nat): Resolution {
    var i := FindProfile(profiles, rule.profileId);
    if rule.profileId != "" && i < |profiles| && ServesInstance(profiles[i], rule, at)
    then Resolution(Instance, Some(rule), Some(profiles[i]), generation)
    else Resolution(ProfileUnavailable, Some(rule), None, generation)
  }

  // ---- what the decision guarantees ----------------------------------------------------------

  /** Without a proven identity, one instance rule for the product is enough to get nothing. */
  lemma FailsClosed(s: Snapshot, mode: Mode, at: Match)
    requires MatchValid(at) && Overridden(s.memory.controllers, at) && !at.identity.Stable?
    ensures Resolve(s, mode, at).value.rule.None? && Resolve(s, mode, at).value.profile.None?
    ensures Resolve(s, mode, at).value.kind in {PolicyUnavailable, IdentityCollision, IdentityUnavailable}
  {
  }

  /** The first profile with that id. File names are told apart with their extension, of which any case is read, so
      there may be others. */
  ghost predicate FirstNamed(profiles: seq<Profile>, id: string, profile: Profile) {
    exists i :: 0 <= i < |profiles| && profiles[i] == profile && profile.id == id && forall j :: 0 <= j < i ==> profiles[j].id != id
  }

  /** Everything an instance decision needs, with no word on the order of rules. */
  ghost predicate Entitled(s: Snapshot, mode: Mode, at: Match, rule: Rule, profile: Profile) {
    && MatchValid(at) && Authorised(s) && at.identity.Stable? && mode.Live?
    && rule in s.memory.controllers && IsExact(rule, at) && rule.enabled != 0 && rule.ignored == 0 && Binds(rule, at)
    && rule.profileId != "" && FirstNamed(s.memory.profiles, rule.profileId, profile) && ServesInstance(profile, rule, at)
  }

  /** INSTANCE is returned exactly when live mode, rule, binding and owned profile all agree. */
  lemma InstanceIff(s: Snapshot, mode: Mode, at: Match)
    requires Storable(s.memory.controllers)
    ensures (Resolve(s, mode, at).Some? && Resolve(s, mode, at).value.kind.Instance?)
       <==> exists rule, profile :: Entitled(s, mode, at, rule, profile)
  {
    var m, r := s.memory, Resolve(s, mode, at);
    if r.Some? && r.value.kind.Instance? {
      var id := r.value.rule.value.profileId;
      assert m.profiles[FindProfile(m.profiles, id)] == r.value.profile.value;
      assert FirstNamed(m.profiles, id, r.value.profile.value);
      assert Entitled(s, mode, at, r.value.rule.value, r.value.profile.value);
    }
    if rule, profile :| Entitled(s, mode, at, rule, profile) {
      InstanceOf(s, mode, at, rule, profile);
    }
  }

  /** So it is on every snapshot that a run of the store's operations can reach. */
  lemma InstanceIffInRuns(codec: Codec, mode: Mode, states: seq<Snapshot>, ops: seq<Op>, done: seq<bool>, n: nat, at: Match)
    requires IsRun(codec, mode, states, ops, done) && n < |states|
    ensures (Resolve(states[n], mode, at).Some? && Resolve(states[n], mode, at).value.kind.Instance?)
       <==> exists rule, profile :: Entitled(states[n], mode, at, rule, profile)
  {
    hide IsRun, Tracked, Resolve, Entitled;
    RunTracked(codec, mode, states, ops, done, n, n);
    TrackedSound(states[n]);
    InstanceIff(states[n], mode, at);
  }

  lemma InstanceOf(s: Snapshot, mode: Mode, at: Match, rule: Rule, profile: Profile)
    requires Storable(s.memory.controllers) && Entitled(s, mode, at, rule, profile)
    ensures Resolve(s, mode, at) == Some(Resolution(Instance, Some(rule), Some(profile), s.generation))
  {
    hide Valid, ValidInstance, SameProtocol;
    ExactUnique(s.memory.controllers, at, rule);
    var profiles := s.memory.profiles;
    var i := FindProfile(profiles, rule.profileId);
    var j :| 0 <= j < |profiles| && profiles[j] == profile && profile.id == rule.profileId
             && forall k :: 0 <= k < j ==> profiles[k].id != rule.profileId;
    assert i == j;
  }

  /** Shared decisions never hand out a profile that belongs to one controller, and vetoes hand out none. */
  lemma NeverOwned(s: Snapshot, mode: Mode, at: Match)
    requires Resolve(s, mode, at).Some?
    ensures var r := Resolve(s, mode, at).value;
      && (r.profile.Some? && !r.kind.Instance? ==> r.kind in {Model, NoRule} && !Owned(r.profile.value) && r.profile.value.enabled)
      && (r.profile.Some? && r.kind.Instance? ==> r.profile.value.ownerController == r.rule.value.id)
      && (r.kind.NoRule? ==> r.rule.None?)
      && r.generation == s.generation
  {
  }

  lemma ExactUnique(rules: seq<Rule>, at: Match, rule: Rule)
    requires Storable(rules) && rule in rules && IsExact(rule, at)
    ensures LastExact(rules, at) == Some(rule)
  {
    hide Valid;
    var last := LastExact(rules, at).value;
    var i :| 0 <= i < |rules| && rules[i] == rule;
    var j :| 0 <= j < |rules| && rules[j] == last;
    assert SameTarget(rules[i], rules[j]);
  }

  lemma ModelUnique(rules: seq<Rule>, at: Match, rule: Rule)
    requires Storable(rules) && rule in rules && IsModel(rule, at)
    ensures LastModel(rules, at) == Some(rule)
  {
    hide Valid;
    var last := LastModel(rules, at).value;
    var i :| 0 <= i < |rules| && rules[i] == rule;
    var j :| 0 <= j < |rules| && rules[j] == last;
    assert SameTarget(rules[i], rules[j]);
  }

  /** No two stored rules name one controller, so their order in the file does not matter. */
  lemma OrderIrrelevant(s: Snapshot, mode: Mode, at: Match, rules: seq<Rule>)
    requires Storable(s.memory.controllers) && Storable(rules)
    requires forall r :: r in rules <==> r in s.memory.controllers
    ensures Resolve(s, mode, at) == Resolve(s.(memory := s.memory.(controllers := rules)), mode, at)
  {
    hide Storable, MatchValid, Binds, Shared, InstanceResolution;
    var mine := s.memory.controllers;
    SameChoice(mine, rules, at);
    SameChoice(rules, mine, at);
  }

  lemma SameChoice(a: seq<Rule>, b: seq<Rule>, at: Match)
    requires Storable(a) && Storable(b) && forall r :: r in a ==> r in b
    ensures Overridden(a, at) ==> Overridden(b, at)
    ensures LastExact(a, at).Some? ==> LastExact(b, at) == LastExact(a, at)
    ensures LastModel(a, at).Some? ==> LastModel(b, at) == LastModel(a, at)
  {
    hide Storable;
    if i :| 0 <= i < |a| && ForProduct(a[i], at) && a[i].instanceId != "" {
      assert a[i] in b;
    }
    if LastExact(a, at).Some? { ExactUnique(b, at, LastExact(a, at).value); }
    if LastModel(a, at).Some? { ModelUnique(b, at, LastModel(a, at).value); }
  }

  // ---- the operation -------------------------------------------------------------------------

  method PickRules(rules: seq<Rule>, at: Match) returns (model: Option<Rule>, exact: Option<Rule>, overrides: bool)
    ensures model == LastModel(rules, at) && exact == LastExact(rules, at) && overrides == Overridden(rules, at)
  {
    model, exact, overrides := None, None, false;
    for i := 0 to |rules|
      invariant model == LastModel(rules[..i], at) && exact == LastExact(rules[..i], at) && overrides == Overridden(rules[..i], at)
    {
      assert rules[..i + 1][..i] == rules[..i];
      var candidate := rules[i];
      if candidate.vid != at.vid || candidate.pid != at.pid { continue; }
      if candidate.instanceId == "" {
        model := Some(candidate);
      } else {
        overrides := true;
        assert rules[..i + 1][i] == candidate;
        if at.identity.Stable? && candidate.instanceId == at.instanceId { exact := Some(candidate); }
      }
    }
    assert rules[..|rules|] == rules;
  }

  method PickInstanceProfile(profiles: seq<Profile>, rule: Rule, at: Match, generation: nat) returns (r: Resolution)
    ensures r == InstanceResolution(profiles, rule, at, generation)
  {
    r := Resolution(ProfileUnavailable, Some(rule), None, generation);
    for i := 0 to |profiles|
      invariant r == Resolution(ProfileUnavailable, Some(rule), None, generation)
      invariant rule.profileId != "" ==> forall j :: 0 <= j < i ==> profiles[j].id != rule.profileId
    {
      if rule.profileId == "" || rule.profileId != profiles[i].id { continue; }
      assert i == FindProfile(profiles, rule.profileId);
      if !ServesInstance(profiles[i], rule, at) { return; }
      return Resolution(Instance, Some(rule), Some(profiles[i]), generation);
    }
  }

  method PickShared(m: Memory, at: Match) returns (r: Option<Profile>)
    ensures r == Shared(m.runtime.active, m.profiles, at)
  {
    hide MatchScore;
    r := None;
    if !SameFold(m.runtime.active, "auto") {
      for i := 0 to |m.profiles|
        invariant Named(m.profiles, m.runtime.active) == Named(m.profiles[i..], m.runtime.active)
      {
        assert m.profiles[i..][1..] == m.profiles[i + 1..];
        var p := m.profiles[i];
        if m.runtime.active == p.id && p.enabled && p.ownerController == "" && p.ownerInstance == "" { return Some(p); }
      }
      return None;
    }
    var best := -1;
    for i := 0 to |m.profiles|
      invariant r == Best(m.profiles[..i], at)
      invariant best == if r.Some? then MatchScore(r.value, at.vid, at.pid, at.protocol) else -1
    {
      assert m.profiles[..i + 1][..i] == m.profiles[..i];
      var score := MatchScore(m.profiles[i], at.vid, at.pid, at.protocol);
      if score > best { r, best := Some(m.profiles[i]), score; }
    }
    assert m.profiles[..|m.profiles|] == m.profiles;
  }

  method ResolveController(s: Snapshot, mode: Mode, at: Match) returns (r: Option<Resolution>)
    ensures r == Resolve(s, mode, at)
  {
    hide Overridden, LastModel, LastExact, InstanceResolution, Shared, MatchValid, Binds;
    if !MatchValid(at) { return None; }
    var out := Resolution(NoRule, None, None, s.generation);
    if !s.valid || s.exhausted { return Some(out.(kind := PolicyUnavailable)); }
    if at.identity.Collision? { return Some(out.(kind := IdentityCollision)); }
    var model, exact, overrides := PickRules(s.memory.controllers, at);
    if overrides && !at.identity.Stable? { return Some(out.(kind := IdentityUnavailable)); }
    if exact.Some? && !mode.Live? { return Some(out.(kind := PolicyUnavailable)); }
    var rule := if exact.Some? then exact else model;
    if rule.Some? {
      out := out.(rule := rule);
      if rule.value.enabled == 0 || rule.value.ignored != 0 { return Some(out.(kind := Veto)); }
      if !Binds(rule.value, at) { return Some(out.(kind := BindingMismatch)); }
    }
    if exact.Some? {
      var instance := PickInstanceProfile(s.memory.profiles, exact.value, at, s.generation);
      return Some(instance);
    }
    var shared := PickShared(s.memory, at);
    return Some(Resolution(if rule.Some? then Model else NoRule, rule, shared, s.generation));
  }
}
