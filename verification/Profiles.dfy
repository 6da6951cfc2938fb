/** Input profiles as the configuration store sees them: identity, what they match, and who owns them. The mappings
    themselves are carried along unread. */
module Profiles {
  import opened Bytes
  import opened Controllers

  datatype Profile = Profile(schema: int, id: string, name: string, enabled: bool, matchAnyVid: bool, matchAnyPid: bool,
                             matchVid: U16, matchPid: U16, protocol: string, ownerController: string,
                             ownerInstance: string, mapping: nat)

  predicate Owned(p: Profile) { p.ownerController != "" || p.ownerInstance != "" }

  /** `hid` and `dinput` name the same protocol; `any` has no special meaning here. */
  predicate SameProtocol(a: string, b: string) {
    || SameFold(a, b) || (SameFold(a, "hid") && SameFold(b, "dinput")) || (SameFold(a, "dinput") && SameFold(b, "hid"))
  }

  predicate MatchesExactIdentity(p: Profile, vid: U16, pid: U16, protocol: string) {
    && !Owned(p) && !p.matchAnyVid && !p.matchAnyPid && p.matchVid == vid && p.matchPid == pid
    && !SameFold(p.protocol, "any") && SameProtocol(p.protocol, protocol)
  }

  /** How specifically an unowned enabled profile matches; -1 if it does not. */
  function MatchScore(p: Profile, vid: U16, pid: U16, protocol: string): (score: int)
    ensures -1 <= score <= 7
    ensures score >= 0 ==> p.enabled && !Owned(p)
  {
    if !p.enabled || Owned(p) || (!p.matchAnyVid && p.matchVid != vid) || (!p.matchAnyPid && p.matchPid != pid) then -1
    else
      var specific := !SameFold(p.protocol, "any");
      if specific && !SameProtocol(p.protocol, protocol) then -1
      else (if p.matchAnyVid then 0 else 4) + (if p.matchAnyPid then 0 else 2) + (if specific then 1 else 0)
  }

  /** No two rules share a profile, and a profile that exists agrees with the rule naming it. */
  predicate AssociationsValid(rules: seq<Rule>, profiles: seq<Profile>) {
    forall i :: 0 <= i < |rules| && rules[i].profileId != "" ==>
      && (forall j :: 0 <= j < i ==> rules[j].profileId != rules[i].profileId)
      && forall j :: 0 <= j < |profiles| && profiles[j].id == rules[i].profileId ==>
           rules[i].id == profiles[j].ownerController && rules[i].instanceId == profiles[j].ownerInstance
  }

  method CheckAssociations(rules: seq<Rule>, profiles: seq<Profile>) returns (ok: bool)
    ensures ok == AssociationsValid(rules, profiles)
  {
    for i := 0 to |rules|
      invariant AssociationsValid(rules[..i], profiles)
    {
      var r := rules[i];
      if r.profileId != "" {
        for j := 0 to i
          invariant forall k :: 0 <= k < j ==> rules[k].profileId != r.profileId
        {
          if r.profileId == rules[j].profileId { return false; }
        }
        for j := 0 to |profiles|
          invariant forall k :: 0 <= k < j && profiles[k].id == r.profileId ==>
            r.id == profiles[k].ownerController && r.instanceId == profiles[k].ownerInstance
        {
          if r.profileId == profiles[j].id {
            if r.id != profiles[j].ownerController || r.instanceId != profiles[j].ownerInstance { return false; }
          }
        }
      }
    }
    assert rules[..|rules|] == rules;
    return true;
  }

  // ---- a connected controller ----------------------------------------------------------------

  datatype Transport = UnknownTransport | Usb | Classic | Le

  datatype Identity = Unknown | Stable | Collision

  datatype Match = Match(transport: Transport, session: string, path: string, connection: nat, occurrence: nat,
                         vid: U16, pid: U16, protocol: string, interfaceIndex: int, interfaceNumber: int,
                         alternate: int, inEndpoint: Byte, outEndpoint: Byte, identity: Identity, classicProof: bool,
                         instanceId: string)

  predicate MatchValid(m: Match) {
    && m.path != "" && m.protocol != "" && |m.session| == 32 && m.connection != 0 && m.occurrence != 0
    && (forall i :: 0 <= i < |m.session| ==> '0' <= m.session[i] <= '9' || 'a' <= m.session[i] <= 'f')
    && (!m.transport.Usb? ==>
          m.interfaceIndex == -1 && m.interfaceNumber == -1 && m.alternate == -1 && m.inEndpoint == 0 && m.outEndpoint == 0)
    && -1 <= m.interfaceIndex <= 255 && -1 <= m.interfaceNumber <= 255 && -1 <= m.alternate <= 255
    && (if m.identity.Stable? then m.transport.Classic? && m.classicProof && ValidInstance(m.instanceId)
        else !m.classicProof && m.instanceId == "")
  }

  /** The rule's binding admits the connection. */
  predicate Binds(r: Rule, m: Match) {
    && SameProtocol(r.protocol, m.protocol)
    && (r.interfaceNumber == -1 || r.interfaceNumber == m.interfaceNumber)
    && (r.inEndpoint == 0 || r.inEndpoint == m.inEndpoint) && (r.outEndpoint == 0 || r.outEndpoint == m.outEndpoint)
  }
}
