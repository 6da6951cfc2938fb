/** When each of the resolver's answers is due, in terms of the governing rule and with no word on the order of tests. */
module Verdicts {
  import opened Controllers
  import opened Profiles
  import opened Resolver
  import opened Store
  import opened StoreRuns
  import opened Wrappers

  /** The rule that governs the connection: the exact one, or the model's if there is no exact one. */
  ghost predicate Governs(rules: seq<Rule>, at: Match, rule: Rule) {
    rule in rules && (IsExact(rule, at) || (IsModel(rule, at) && forall r :: r in rules ==> !IsExact(r, at)))
  }

  ghost predicate Ungoverned(rules: seq<Rule>, at: Match) {
    forall r :: r in rules ==> !IsExact(r, at) && !IsModel(r, at)
  }

  /** The request is well formed and nothing forbids a decision. */
  ghost predicate Decidable(s: Snapshot, mode: Mode, at: Match) {
    && MatchValid(at) && Authorised(s) && !at.identity.Collision?
    && (at.identity.Stable? || !Overridden(s.memory.controllers, at))
    && (mode.Live? || forall r :: r in s.memory.controllers ==> !IsExact(r, at))
  }

  predicate Vetoed(r: Rule) { r.enabled == 0 || r.ignored != 0 }

  lemma GovernedBy(s: Snapshot, at: Match, rule: Rule)
    requires Storable(s.memory.controllers) && Governs(s.memory.controllers, at, rule)
    ensures var m := s.memory.controllers;
      LastExact(m, at) == (if IsExact(rule, at) then Some(rule) else None)
      && (!IsExact(rule, at) ==> LastModel(m, at) == Some(rule))
  {
    hide Storable;
    var m := s.memory.controllers;
    if IsExact(rule, at) {
      ExactUnique(m, at, rule);
    } else {
      ModelUnique(m, at, rule);
    }
  }

  lemma NoExact(s: Snapshot, mode: Mode, at: Match)
    requires Decidable(s, mode, at) && !mode.Live?
    ensures LastExact(s.memory.controllers, at).None?
  {
  }

  /** What a governed connection gets. */
  function Answer(s: Snapshot, at: Match, rule: Rule): Resolution {
    if Vetoed(rule) then Resolution(Veto, Some(rule), None, s.generation)
    else if !Binds(rule, at) then Resolution(BindingMismatch, Some(rule), None, s.generation)
    else if IsExact(rule, at) then InstanceResolution(s.memory.profiles, rule, at, s.generation)
    else Resolution(Model, Some(rule), Shared(s.memory.runtime.active, s.memory.profiles, at), s.generation)
  }

  lemma Governed(s: Snapshot, mode: Mode, at: Match, rule: Rule)
    requires Storable(s.memory.controllers) && Decidable(s, mode, at) && Governs(s.memory.controllers, at, rule)
    ensures Resolve(s, mode, at) == Some(Answer(s, at, rule))
  {
    hide Storable, MatchValid, Binds, Shared, InstanceResolution, LastExact, LastModel, Overridden;
    GovernedBy(s, at, rule);
    if !mode.Live? { NoExact(s, mode, at); }
  }

  /** Main result: with a governing rule, VETO is the answer exactly when that rule is disabled or ignored, and
      BINDING_MISMATCH exactly when it is neither and does not bind, both with the rule and without a profile; MODEL exactly
      when it is a model rule in force that binds. */
  lemma GovernedVerdict(s: Snapshot, mode: Mode, at: Match, rule: Rule)
    requires Storable(s.memory.controllers) && Decidable(s, mode, at) && Governs(s.memory.controllers, at, rule)
    ensures Resolve(s, mode, at).Some? && Resolve(s, mode, at).value.rule == Some(rule)
    ensures var r := Resolve(s, mode, at).value;
      && (r.kind.Veto? <==> rule.enabled == 0 || rule.ignored != 0)
      && (r.kind.BindingMismatch? <==> rule.enabled != 0 && rule.ignored == 0 && !Binds(rule, at))
      && (r.kind.Model? <==> rule.enabled != 0 && rule.ignored == 0 && Binds(rule, at) && rule.instanceId == "")
      && (r.kind.Instance? || r.kind.ProfileUnavailable? <==>
            rule.enabled != 0 && rule.ignored == 0 && Binds(rule, at) && rule.instanceId != "")
      && (r.kind.Veto? || r.kind.BindingMismatch? || r.kind.ProfileUnavailable? ==> r.profile.None?)
      && (r.kind.Model? ==> r.profile == Shared(s.memory.runtime.active, s.memory.profiles, at))
  {
    hide Storable, Decidable, Binds, Shared;
    Governed(s, mode, at, rule);
  }

  /** Without a governing rule the answer is that there is none, and only then. */
  lemma UngovernedVerdict(s: Snapshot, mode: Mode, at: Match)
    requires Storable(s.memory.controllers) && Decidable(s, mode, at)
    ensures Resolve(s, mode, at).Some?
    ensures Resolve(s, mode, at).value.kind.NoRule? <==> Ungoverned(s.memory.controllers, at)
    ensures Ungoverned(s.memory.controllers, at) ==>
      Resolve(s, mode, at).value == Resolution(NoRule, None, Shared(s.memory.runtime.active, s.memory.profiles, at), s.generation)
    ensures Ungoverned(s.memory.controllers, at) <==> forall rule :: !Governs(s.memory.controllers, at, rule)
  {
    hide Storable, MatchValid, Binds, Shared, InstanceResolution, SameProtocol;
    var rules := s.memory.controllers;
    if rule :| Governs(rules, at, rule) {
      hide Decidable;
      GovernedVerdict(s, mode, at, rule);
    } else {
      NoneGoverns(rules, at);
    }
  }

  lemma NoneGoverns(rules: seq<Rule>, at: Match)
    requires forall rule :: !Governs(rules, at, rule)
    ensures Ungoverned(rules, at) && LastExact(rules, at).None? && LastModel(rules, at).None?
  {
    if r :| r in rules && IsExact(r, at) {
      assert Governs(rules, at, r);
    }
    if r :| r in rules && IsModel(r, at) {
      assert Governs(rules, at, r);
    }
  }

  /** The answers that fail closed, each with its own reason and in that order of precedence, and with neither rule nor
      profile. */
  lemma ClosedVerdict(s: Snapshot, mode: Mode, at: Match)
    requires MatchValid(at)
    ensures Resolve(s, mode, at).Some?
    ensures var r, overridden := Resolve(s, mode, at).value, Overridden(s.memory.controllers, at);
      && (r.kind.PolicyUnavailable? <==>
            || !Authorised(s)
            || (!at.identity.Collision? && at.identity.Stable? && !mode.Live? && exists x :: x in s.memory.controllers && IsExact(x, at)))
      && (r.kind.IdentityCollision? <==> Authorised(s) && at.identity.Collision?)
      && (r.kind.IdentityUnavailable? <==> Authorised(s) && at.identity.Unknown? && overridden)
      && (r.kind.PolicyUnavailable? || r.kind.IdentityCollision? || r.kind.IdentityUnavailable? ==> r.rule.None? && r.profile.None?)
      && (Decidable(s, mode, at) <==> !(r.kind.PolicyUnavailable? || r.kind.IdentityCollision? || r.kind.IdentityUnavailable?))
  {
    hide MatchValid, Binds, Shared, LastModel, SameProtocol;
    var rules := s.memory.controllers;
    if x :| x in rules && IsExact(x, at) {
      var i :| 0 <= i < |rules| && rules[i] == x;
      assert IsExact(rules[i], at);
    }
  }

  /** A malformed request gets no answer, and no other does. */
  lemma RefusedIffMalformed(s: Snapshot, mode: Mode, at: Match)
    ensures Resolve(s, mode, at).None? <==> !MatchValid(at)
  {
  }

  // ---- bindings ------------------------------------------------------------------------------

  /** Protocols are compared without case, and HID and DirectInput count as one: what remains is an equivalence in which all
      others stay apart. */
  lemma ProtocolClasses(a: string, b: string, c: string)
    ensures SameProtocol(a, a) && (SameProtocol(a, b) <==> SameProtocol(b, a))
    ensures SameProtocol(a, b) && SameProtocol(b, c) ==> SameProtocol(a, c)
    ensures SameProtocol("hid", "DInput") && (SameFold(a, b) ==> SameProtocol(a, b))
    ensures SameProtocol(a, b) ==> SameFold(a, b) || SameFold(a, "hid") || SameFold(a, "dinput")
  {
    assert forall i :: 0 <= i < 6 ==> Lower("DInput"[i]) == Lower("dinput"[i]);
    assert Lower("hid"[0]) != Lower("dinput"[0]);
  }

  /** A rule binds through what it names: interface and endpoints left automatic admit any. A connection without USB has none of
      them, so there only a rule that leaves all three automatic can bind. */
  lemma BindingMeans(rule: Rule, at: Match)
    requires MatchValid(at) && SameProtocol(rule.protocol, at.protocol)
    ensures rule.interfaceNumber == -1 && rule.inEndpoint == 0 && rule.outEndpoint == 0 ==> Binds(rule, at)
    ensures Binds(rule, at) && rule.interfaceNumber != -1 ==> at.transport.Usb? && rule.interfaceNumber == at.interfaceNumber
    ensures Binds(rule, at) && rule.inEndpoint != 0 ==> at.transport.Usb? && rule.inEndpoint == at.inEndpoint
    ensures Binds(rule, at) && rule.outEndpoint != 0 ==> at.transport.Usb? && rule.outEndpoint == at.outEndpoint
    ensures rule.interfaceNumber == at.interfaceNumber && rule.inEndpoint == at.inEndpoint && rule.outEndpoint == at.outEndpoint ==>
      Binds(rule, at)
  {
    hide SameProtocol;
  }

  /** A rule for one controller is in force only over Bluetooth Classic, and only while it leaves interface and endpoints
      automatic: one that names any of them gets BINDING_MISMATCH at every connection of its controller. */
  lemma InstanceAutomatic(s: Snapshot, mode: Mode, at: Match)
    requires Storable(s.memory.controllers) && Resolve(s, mode, at).Some? && Resolve(s, mode, at).value.kind.Instance?
    ensures Resolve(s, mode, at).value.rule.Some? && at.transport.Classic?
    ensures var r := Resolve(s, mode, at).value.rule.value; r.interfaceNumber == -1 && r.inEndpoint == r.outEndpoint == 0
  {
    hide Storable, Resolve, ServesInstance, SameProtocol, InstanceResolution;
    InstanceIff(s, mode, at);
    var rule, profile :| Entitled(s, mode, at, rule, profile);
    InstanceRule(s, mode, at);
    var r := Resolve(s, mode, at).value.rule.value;
    BindingMeans(r, at);
  }

  lemma InstanceRule(s: Snapshot, mode: Mode, at: Match)
    requires Resolve(s, mode, at).Some? && Resolve(s, mode, at).value.kind.Instance?
    ensures Resolve(s, mode, at).value.rule.Some? && MatchValid(at)
    ensures var r := Resolve(s, mode, at).value.rule.value; Binds(r, at) && SameProtocol(r.protocol, at.protocol)
  {
    hide SameProtocol, Shared, LastModel, LastExact, ServesInstance, Overridden;
  }

  // ---- bound profiles ------------------------------------------------------------------------

  ghost predicate Associated(s: Snapshot) { AssociationsValid(s.memory.controllers, s.memory.profiles) }

  /** Whatever commits publishes rules and profiles that agree, a first reload too; and nothing else disturbs them. */
  lemma StepAssociated(codec: Codec, mode: Mode, op: Op, s: Snapshot, t: Snapshot, committed: bool)
    requires OpStep(codec, mode, op, s, t, committed)
    ensures committed || Associated(s) ==> Associated(t)
  {
    hide Plan, RulesOn, AssociationsValid;
  }

  /** Rules and the profiles bound to them agree on their owners throughout every run. */
  lemma {:induction false} AssociatedThroughout(codec: Codec, mode: Mode, states: seq<Snapshot>, ops: seq<Op>, done: seq<bool>, n: nat)
    requires IsRun(codec, mode, states, ops, done) && Associated(states[0]) && n < |states|
    ensures Associated(states[n])
  {
    hide OpStep, Tracked, Associated;
    if n > 0 {
      AssociatedThroughout(codec, mode, states, ops, done, n - 1);
      StepAssociated(codec, mode, ops[n - 1], states[n - 1], states[n], done[n - 1]);
    }
  }

  /** The profile names this product and protocol and is enabled. */
  predicate Fits(p: Profile, at: Match) {
    && p.enabled && !p.matchAnyVid && !p.matchAnyPid && p.matchVid == at.vid && p.matchPid == at.pid
    && SameProtocol(p.protocol, at.protocol)
  }

  /** The owner is never the reason: where a rule for one controller is in force and binds, PROFILE_UNAVAILABLE is the answer
      exactly when no profile is bound, none has the bound id, or the first that has it is disabled or made for another
      product or protocol. */
  lemma UnavailableIff(s: Snapshot, mode: Mode, at: Match, rule: Rule)
    requires Storable(s.memory.controllers) && Associated(s) && Decidable(s, mode, at)
    requires Governs(s.memory.controllers, at, rule) && rule.instanceId != "" && !Vetoed(rule) && Binds(rule, at)
    ensures Resolve(s, mode, at).Some?
    ensures var r := Resolve(s, mode, at).value;
      && (r.kind.ProfileUnavailable? <==>
            rule.profileId == "" || forall p :: FirstNamed(s.memory.profiles, rule.profileId, p) ==> !Fits(p, at))
      && (!r.kind.ProfileUnavailable? ==>
            r.kind.Instance? && r.profile.Some? && FirstNamed(s.memory.profiles, rule.profileId, r.profile.value) && Fits(r.profile.value, at))
  {
    hide Storable, Decidable, Binds, Shared, SameProtocol, MatchValid;
    Governed(s, mode, at, rule);
    var profiles, i := s.memory.profiles, FindProfile(s.memory.profiles, rule.profileId);
    if rule.profileId != "" {
      if i < |profiles| {
        OwnerOf(s, rule, i);
        assert FirstNamed(profiles, rule.profileId, profiles[i]);
      }
      forall p | FirstNamed(profiles, rule.profileId, p) ensures i < |profiles| && p == profiles[i] {
        var k :| 0 <= k < |profiles| && profiles[k] == p && p.id == rule.profileId && forall j :: 0 <= j < k ==> profiles[j].id != rule.profileId;
        assert k == i;
      }
    }
  }

  lemma OwnerOf(s: Snapshot, rule: Rule, i: nat)
    requires Associated(s) && rule in s.memory.controllers && rule.profileId != ""
    requires i < |s.memory.profiles| && s.memory.profiles[i].id == rule.profileId
    ensures s.memory.profiles[i].ownerController == rule.id && s.memory.profiles[i].ownerInstance == rule.instanceId
  {
    var k :| 0 <= k < |s.memory.controllers| && s.memory.controllers[k] == rule;
  }

  // ---- the shared profile --------------------------------------------------------------------

  /** An enabled profile that belongs to nobody. */
  predicate Free(p: Profile) { p.enabled && p.ownerController == "" && p.ownerInstance == "" }

  /** How a profile's matching fits a connection: vendor, product and protocol named, any or contradicted. */
  predicate Admits(p: Profile, at: Match) {
    && (p.matchAnyVid || p.matchVid == at.vid) && (p.matchAnyPid || p.matchPid == at.pid)
    && (SameFold(p.protocol, "any") || SameProtocol(p.protocol, at.protocol))
  }

  /** Naming the vendor outweighs the rest, and naming the product outweighs the protocol. */
  predicate MoreSpecific(p: Profile, q: Profile) {
    || (!p.matchAnyVid && q.matchAnyVid)
    || (p.matchAnyVid == q.matchAnyVid && !p.matchAnyPid && q.matchAnyPid)
    || (p.matchAnyVid == q.matchAnyVid && p.matchAnyPid == q.matchAnyPid && !SameFold(p.protocol, "any") && SameFold(q.protocol, "any"))
  }

  lemma ScoreMeans(p: Profile, q: Profile, at: Match)
    ensures MatchScore(p, at.vid, at.pid, at.protocol) >= 0 <==> Free(p) && Admits(p, at)
    ensures Free(p) && Admits(p, at) && Free(q) && Admits(q, at) ==>
      (MatchScore(p, at.vid, at.pid, at.protocol) > MatchScore(q, at.vid, at.pid, at.protocol) <==> MoreSpecific(p, q))
  {
    hide SameFold, SameProtocol;
  }

  /** p is the first of the most specific free profiles that admit the connection. */
  ghost predicate FirstBest(profiles: seq<Profile>, at: Match, p: Profile) {
    exists i :: 0 <= i < |profiles| && profiles[i] == p && Free(p) && Admits(p, at)
      && (forall j :: 0 <= j < |profiles| && Free(profiles[j]) && Admits(profiles[j], at) ==> !MoreSpecific(profiles[j], p))
      && forall j :: 0 <= j < i && Free(profiles[j]) && Admits(profiles[j], at) ==> MoreSpecific(p, profiles[j])
  }

  /** The first place with the best score. */
  lemma {:induction false} BestPlace(profiles: seq<Profile>, at: Match) returns (i: nat)
    requires Best(profiles, at).Some?
    ensures i < |profiles| && profiles[i] == Best(profiles, at).value && Score(profiles[i], at) >= 0
    ensures forall j :: 0 <= j < i ==> Score(profiles[j], at) < Score(profiles[i], at)
    decreases |profiles|
  {
    hide MatchScore;
    var n := |profiles| - 1;
    var front, last := profiles[..n], profiles[n];
    var best := if Best(front, at).Some? then Score(Best(front, at).value, at) else -1;
    if Score(last, at) > best {
      i := n;
      assert forall j :: 0 <= j < n ==> front[j] in front;
    } else {
      i := BestPlace(front, at);
    }
  }

  function Score(p: Profile, at: Match): int { MatchScore(p, at.vid, at.pid, at.protocol) }

  lemma BestIs(profiles: seq<Profile>, at: Match)
    ensures Best(profiles, at).Some? ==> FirstBest(profiles, at, Best(profiles, at).value)
    ensures Best(profiles, at).None? ==> forall p :: p in profiles ==> !(Free(p) && Admits(p, at))
  {
    hide Best, MatchScore, Free, Admits, MoreSpecific;
    if Best(profiles, at).Some? {
      var p := Best(profiles, at).value;
      var i := BestPlace(profiles, at);
      forall j | 0 <= j < |profiles| && Free(profiles[j]) && Admits(profiles[j], at)
        ensures !MoreSpecific(profiles[j], p) && (j < i ==> MoreSpecific(p, profiles[j]))
      {
        assert profiles[j] in profiles;
        ScoreMeans(profiles[j], p, at);
        ScoreMeans(p, profiles[j], at);
      }
      ScoreMeans(p, p, at);
    } else {
      forall p | p in profiles ensures !(Free(p) && Admits(p, at)) { ScoreMeans(p, p, at); }
    }
  }

  /** The profile of a MODEL or NONE answer: the first with the active id that is free, or with `auto` the first of the most
      specific ones; none if there is none. */
  lemma SharedIs(active: string, profiles: seq<Profile>, at: Match)
    ensures var r := Shared(active, profiles, at);
      if SameFold(active, "auto") then
        if r.Some? then FirstBest(profiles, at, r.value) else forall p :: p in profiles ==> !(Free(p) && Admits(p, at))
      else
        if r.Some? then FirstFree(profiles, active, r.value) else forall p :: p in profiles ==> !(p.id == active && Free(p))
  {
    hide Best, Resolver.Named, FirstBest, FirstFree;
    BestIs(profiles, at);
    NamedIs(profiles, active);
  }

  ghost predicate FirstFree(profiles: seq<Profile>, id: string, p: Profile) {
    exists i :: 0 <= i < |profiles| && profiles[i] == p && p.id == id && Free(p)
      && forall j :: 0 <= j < i ==> !(profiles[j].id == id && Free(profiles[j]))
  }

  lemma {:induction false} NamedIs(profiles: seq<Profile>, id: string)
    ensures Resolver.Named(profiles, id).Some? ==> FirstFree(profiles, id, Resolver.Named(profiles, id).value)
    ensures Resolver.Named(profiles, id).None? ==> forall p :: p in profiles ==> !(p.id == id && Free(p))
    decreases |profiles|
  {
    if profiles != [] {
      NamedIs(profiles[1..], id);
      if profiles[0].id == id && Free(profiles[0]) {
        assert FirstFree(profiles, id, profiles[0]);
      } else if Resolver.Named(profiles[1..], id).Some? {
        var p := Resolver.Named(profiles[1..], id).value;
        var i :| 0 <= i < |profiles[1..]| && profiles[1..][i] == p && p.id == id && Free(p)
          && forall j :: 0 <= j < i ==> !(profiles[1..][j].id == id && Free(profiles[1..][j]));
        assert profiles[i + 1] == p;
        forall j | 0 <= j < i + 1 ensures !(profiles[j].id == id && Free(profiles[j])) {
          if j > 0 { assert profiles[1..][j - 1] == profiles[j]; }
        }
      }
    }
  }
}
