/** Choosing which wireless source feeds which pad of the game.

    A source is routed only when exactly one eligible pad of the game has its user and pad index, and no earlier
    source already took a pad with that handle. */
module Routes {

  const MAX_ROUTES: nat := 4
  const MAX_PAD_INDEX: nat := 7

  datatype Source = Source(userId: int, padIndex: int, padHandle: int, connected: bool, identityVerified: bool)

  datatype GamePad = GamePad(userId: int, padIndex: int, padHandle: int, vendorId: nat, productId: nat,
                             connected: bool, valid: bool)

  datatype Route = Route(sourceSlot: nat, gameSlot: nat, padHandle: int)

  datatype Verdict = Ok | SourceInvalid | SourceDuplicate | NoExactTarget | AmbiguousTarget | TargetAlreadyUsed

  predicate Known(pad: GamePad) {
    pad.connected && pad.vendorId == 0x054c && pad.productId in {0x05c4, 0x09cc, 0x0ba0}
  }

  predicate Valid(source: Source) {
    && source.identityVerified && source.connected && source.userId >= 0
    && 0 <= source.padIndex <= MAX_PAD_INDEX && source.padHandle > 0
  }

  predicate Clash(a: Source, b: Source) {
    a.padHandle == b.padHandle || (a.userId == b.userId && a.padIndex == b.padIndex)
  }

  predicate Matches(source: Source, pad: GamePad) {
    && pad.padHandle > 0 && (Known(pad) || (!pad.connected && !pad.valid))
    && pad.userId == source.userId && pad.padIndex == source.padIndex
  }

  ghost predicate Duplicate(sources: seq<Source>, s: nat)
    requires s < |sources|
  {
    exists t :: 0 <= t < s && Clash(sources[t], sources[s])
  }

  ghost predicate Usable(sources: seq<Source>, s: nat)
    requires s < |sources|
  {
    Valid(sources[s]) && !Duplicate(sources, s)
  }

  /** Pad g, and no other, is a target for the source. */
  ghost predicate OnlyTarget(source: Source, pads: seq<GamePad>, g: nat) {
    g < |pads| && Matches(source, pads[g]) && forall h :: 0 <= h < |pads| && h != g ==> !Matches(source, pads[h])
  }

  ghost predicate Aims(sources: seq<Source>, pads: seq<GamePad>, s: nat, handle: int)
    requires s < |sources|
  {
    Usable(sources, s) && exists g :: 0 <= g < |pads| && OnlyTarget(sources[s], pads, g) && pads[g].padHandle == handle
  }

  ghost predicate Taken(sources: seq<Source>, pads: seq<GamePad>, s: nat, handle: int)
    requires s <= |sources|
  {
    exists t :: 0 <= t < s && Aims(sources, pads, t, handle)
  }

  /** When a verdict is the right one, in terms of sources and pads alone. */
  ghost predicate Judged(sources: seq<Source>, pads: seq<GamePad>, s: nat, verdict: Verdict)
    requires s < |sources|
  {
    match verdict
    case SourceInvalid => !Valid(sources[s])
    case SourceDuplicate => Valid(sources[s]) && Duplicate(sources, s)
    case NoExactTarget => Usable(sources, s) && forall g :: 0 <= g < |pads| ==> !Matches(sources[s], pads[g])
    case AmbiguousTarget =>
      Usable(sources, s) && exists g, h :: 0 <= g < h < |pads| && Matches(sources[s], pads[g]) && Matches(sources[s], pads[h])
    case TargetAlreadyUsed => exists handle :: Aims(sources, pads, s, handle) && Taken(sources, pads, s, handle)
    case Ok => exists handle :: Aims(sources, pads, s, handle) && !Taken(sources, pads, s, handle)
  }

  /** The verdicts exclude one another, so the one a caller gets is the only right one. */
  lemma JudgedOnce(sources: seq<Source>, pads: seq<GamePad>, s: nat, a: Verdict, b: Verdict)
    requires s < |sources| && Judged(sources, pads, s, a) && Judged(sources, pads, s, b)
    ensures a == b
  {
    NoAim(sources, pads, s, a);
    NoAim(sources, pads, s, b);
    forall g, handle | 0 <= g < |pads| && Aims(sources, pads, s, handle) && OnlyTarget(sources[s], pads, g)
      ensures handle == pads[g].padHandle
    {
      AimOf(sources, pads, s, g);
    }
  }

  lemma NoAim(sources: seq<Source>, pads: seq<GamePad>, s: nat, verdict: Verdict)
    requires s < |sources| && Judged(sources, pads, s, verdict)
    ensures verdict !in {Ok, TargetAlreadyUsed} ==> forall handle :: !Aims(sources, pads, s, handle)
  {
  }

  lemma AimOf(sources: seq<Source>, pads: seq<GamePad>, s: nat, g: nat)
    requires s < |sources| && Usable(sources, s) && OnlyTarget(sources[s], pads, g)
    ensures forall handle :: Aims(sources, pads, s, handle) <==> handle == pads[g].padHandle
  {
  }

  /** The route is the one its source deserves. */
  ghost predicate RouteOk(sources: seq<Source>, pads: seq<GamePad>, route: Route)
    requires |pads| <= 256
  {
    && route.sourceSlot < |sources| && Usable(sources, route.sourceSlot)
    && OnlyTarget(sources[route.sourceSlot], pads, route.gameSlot)
    && route.padHandle == pads[route.gameSlot].padHandle
    && !Taken(sources, pads, route.sourceSlot, route.padHandle)
  }

  /** The routes are exactly the sources judged fit, in order, one per handle. */
  ghost predicate Routed(sources: seq<Source>, pads: seq<GamePad>, routes: seq<Route>, n: nat)
    requires n <= |sources| && |pads| <= 256
  {
    && (forall i :: 0 <= i < |routes| ==> RouteOk(sources, pads, routes[i]) && routes[i].sourceSlot < n)
    && (forall i, j :: 0 <= i < j < |routes| ==> routes[i].sourceSlot < routes[j].sourceSlot)
    && forall s, handle :: 0 <= s < n && Aims(sources, pads, s, handle)
         ==> exists i :: 0 <= i < |routes| && routes[i].padHandle == handle
  }

  /** No two routes lead to one handle. */
  lemma HandlesDistinct(sources: seq<Source>, pads: seq<GamePad>, routes: seq<Route>, n: nat, i: nat, j: nat)
    requires n <= |sources| && |pads| <= 256 && Routed(sources, pads, routes, n) && i < j < |routes|
    ensures routes[i].padHandle != routes[j].padHandle
  {
    var s := routes[i].sourceSlot;
    assert RouteOk(sources, pads, routes[i]) && RouteOk(sources, pads, routes[j]);
    assert Aims(sources, pads, s, routes[i].padHandle);
  }

  /** A source has a route if and only if its verdict is Ok. */
  lemma RoutedIffOk(sources: seq<Source>, pads: seq<GamePad>, routes: seq<Route>, n: nat, s: nat)
    requires s < n <= |sources| && |pads| <= 256 && Routed(sources, pads, routes, n)
    ensures (exists i :: 0 <= i < |routes| && routes[i].sourceSlot == s) <==> Judged(sources, pads, s, Ok)
  {
    if i :| 0 <= i < |routes| && routes[i].sourceSlot == s {
      assert RouteOk(sources, pads, routes[i]);
      assert Aims(sources, pads, s, routes[i].padHandle);
    }
    if Judged(sources, pads, s, Ok) {
      var handle :| Aims(sources, pads, s, handle) && !Taken(sources, pads, s, handle);
      var i :| 0 <= i < |routes| && routes[i].padHandle == handle;
      assert RouteOk(sources, pads, routes[i]);
      var t := routes[i].sourceSlot;
      assert Aims(sources, pads, t, handle);
      assert t >= s;
    }
  }

  /** The routes a publication may use are determined by sources and pads. */
  lemma RoutesUnique(sources: seq<Source>, pads: seq<GamePad>, a: seq<Route>, b: seq<Route>, n: nat)
    requires n <= |sources| && |pads| <= 256 && Routed(sources, pads, a, n) && Routed(sources, pads, b, n)
    ensures forall route :: route in a <==> route in b
  {
    RoutesContained(sources, pads, a, b, n);
    RoutesContained(sources, pads, b, a, n);
  }

  lemma RoutesContained(sources: seq<Source>, pads: seq<GamePad>, a: seq<Route>, b: seq<Route>, n: nat)
    requires n <= |sources| && |pads| <= 256 && Routed(sources, pads, a, n) && Routed(sources, pads, b, n)
    ensures forall route :: route in a ==> route in b
  {
    forall route | route in a ensures route in b {
      var i :| 0 <= i < |a| && a[i] == route;
      var s := route.sourceSlot;
      assert RouteOk(sources, pads, a[i]);
      assert Aims(sources, pads, s, route.padHandle);
      RoutedIffOk(sources, pads, b, n, s);
      var j :| 0 <= j < |b| && b[j].sourceSlot == s;
      assert RouteOk(sources, pads, b[j]);
    }
  }

  /** A route leads from a connected source of known identity to the only pad of the game with its user and index that is a known
      controller or not yet opened. */
  lemma RouteMeaning(sources: seq<Source>, pads: seq<GamePad>, routes: seq<Route>, n: nat, i: nat, h: nat)
    requires n <= |sources| && |pads| <= 256 && Routed(sources, pads, routes, n) && i < |routes|
    ensures var r := routes[i];
      r.sourceSlot < n && r.gameSlot < |pads| && r.padHandle == pads[r.gameSlot].padHandle > 0
    ensures var s, g := sources[routes[i].sourceSlot], pads[routes[i].gameSlot];
      && s.identityVerified && s.connected && s.userId >= 0 && 0 <= s.padIndex <= 7 && s.padHandle > 0
      && g.userId == s.userId && g.padIndex == s.padIndex
      && (if g.connected then g.vendorId == 0x054c && g.productId in {0x05c4, 0x09cc, 0x0ba0} else !g.valid)
    ensures var s := sources[routes[i].sourceSlot];
      h < |pads| && h != routes[i].gameSlot && pads[h].userId == s.userId && pads[h].padIndex == s.padIndex && pads[h].padHandle > 0
      ==> if pads[h].connected then pads[h].vendorId != 0x054c || pads[h].productId !in {0x05c4, 0x09cc, 0x0ba0} else pads[h].valid
  {
    assert RouteOk(sources, pads, routes[i]);
  }

  /** A source is routed to the pad with its user and index if source and pad are fit and nothing competes: no earlier source
      shares its handle or its place, no other pad has that place, and no earlier source's pad has that pad's handle. */
  lemma FreeSourceRouted(sources: seq<Source>, pads: seq<GamePad>, routes: seq<Route>, n: nat, s: nat, g: nat)
    requires s < n <= |sources| && g < |pads| <= 256 && Routed(sources, pads, routes, n)
    requires sources[s].identityVerified && sources[s].connected && sources[s].userId >= 0
    requires 0 <= sources[s].padIndex <= 7 && sources[s].padHandle > 0
    requires pads[g].userId == sources[s].userId && pads[g].padIndex == sources[s].padIndex && pads[g].padHandle > 0
    requires if pads[g].connected then pads[g].vendorId == 0x054c && pads[g].productId in {0x05c4, 0x09cc, 0x0ba0} else !pads[g].valid
    requires forall h :: 0 <= h < |pads| && h != g ==> pads[h].userId != sources[s].userId || pads[h].padIndex != sources[s].padIndex
    requires forall t :: 0 <= t < s ==> sources[t].padHandle != sources[s].padHandle
    requires forall t :: 0 <= t < s ==> sources[t].userId != sources[s].userId || sources[t].padIndex != sources[s].padIndex
    requires forall h :: 0 <= h < |pads| && h != g ==> pads[h].padHandle != pads[g].padHandle
    ensures Judged(sources, pads, s, Ok) && Route(s, g, pads[g].padHandle) in routes
  {
    var handle := pads[g].padHandle;
    assert Usable(sources, s) && OnlyTarget(sources[s], pads, g);
    AimOf(sources, pads, s, g);
    assert Aims(sources, pads, s, handle) && !Taken(sources, pads, s, handle);
    RoutedIffOk(sources, pads, routes, n, s);
    var i :| 0 <= i < |routes| && routes[i].sourceSlot == s;
    assert RouteOk(sources, pads, routes[i]);
    assert routes[i].gameSlot == g;
  }

  method IsDuplicate(sources: seq<Source>, s: nat) returns (r: bool)
    requires s < |sources|
    ensures r <==> Duplicate(sources, s)
  {
    for other := 0 to s
      invariant forall t :: 0 <= t < other ==> !Clash(sources[t], sources[s])
    {
      if Clash(sources[other], sources[s]) { return true; }
    }
    return false;
  }

  method LeadsTo(routes: seq<Route>, handle: int) returns (r: bool)
    ensures r <==> exists i :: 0 <= i < |routes| && routes[i].padHandle == handle
  {
    for i := 0 to |routes|
      invariant forall j :: 0 <= j < i ==> routes[j].padHandle != handle
    {
      if routes[i].padHandle == handle { return true; }
    }
    return false;
  }

  /** How many pads match, and the last of them. */
  method Candidates(source: Source, pads: seq<GamePad>) returns (count: nat, candidate: nat)
    ensures count == 0 ==> forall g :: 0 <= g < |pads| ==> !Matches(source, pads[g])
    ensures count == 1 ==> OnlyTarget(source, pads, candidate)
    ensures count > 1 ==> exists g, h :: 0 <= g < h < |pads| && Matches(source, pads[g]) && Matches(source, pads[h])
  {
    count, candidate := 0, 0;
    for g := 0 to |pads|
      invariant count == 0 ==> forall h :: 0 <= h < g ==> !Matches(source, pads[h])
      invariant count > 0 ==> candidate < g && Matches(source, pads[candidate])
      invariant count == 1 ==> forall h :: 0 <= h < g && h != candidate ==> !Matches(source, pads[h])
      invariant count > 1 ==> exists h, k :: 0 <= h < k < g && Matches(source, pads[h]) && Matches(source, pads[k])
    {
      if Matches(source, pads[g]) {
        count, candidate := count + 1, g;
      }
    }
  }

  /** Everything about a source but whether its target is still free. */
  method JudgeSource(sources: seq<Source>, pads: seq<GamePad>, s: nat) returns (verdict: Verdict, candidate: nat)
    requires s < |sources|
    ensures verdict == Ok ==> Usable(sources, s) && OnlyTarget(sources[s], pads, candidate)
    ensures verdict != Ok ==> verdict != TargetAlreadyUsed && Judged(sources, pads, s, verdict)
  {
    hide Valid, Matches, OnlyTarget;
    if !Valid(sources[s]) { return SourceInvalid, 0; }
    var duplicate := IsDuplicate(sources, s);
    if duplicate { return SourceDuplicate, 0; }
    var candidates;
    candidates, candidate := Candidates(sources[s], pads);
    if candidates == 0 { return NoExactTarget, 0; }
    if candidates != 1 { return AmbiguousTarget, 0; }
    return Ok, candidate;
  }

  lemma NothingRouted(sources: seq<Source>, pads: seq<GamePad>)
    requires |pads| <= 256
    ensures Routed(sources, pads, [], 0)
  {
  }

  lemma Skipped(sources: seq<Source>, pads: seq<GamePad>, routes: seq<Route>, s: nat, verdict: Verdict)
    requires s < |sources| && |pads| <= 256 && Routed(sources, pads, routes, s)
    requires Judged(sources, pads, s, verdict) && verdict !in {Ok, TargetAlreadyUsed}
    ensures Routed(sources, pads, routes, s + 1)
  {
    hide Judged, Aims, RouteOk;
    NoAim(sources, pads, s, verdict);
  }

  /** The route of a source with a target whose handle is still free, and its verdict; or that the handle is taken. */
  lemma Decided(sources: seq<Source>, pads: seq<GamePad>, routes: seq<Route>, s: nat, candidate: nat, used: bool)
    requires s < |sources| && |pads| <= 256 && Routed(sources, pads, routes, s)
    requires Usable(sources, s) && OnlyTarget(sources[s], pads, candidate)
    requires used <==> exists i :: 0 <= i < |routes| && routes[i].padHandle == pads[candidate].padHandle
    ensures Judged(sources, pads, s, if used then TargetAlreadyUsed else Ok)
    ensures Routed(sources, pads, if used then routes else routes + [Route(s, candidate, pads[candidate].padHandle)], s + 1)
  {
    hide Routed, Usable, OnlyTarget, Taken, Aims;
    TargetInRange(sources[s], pads, candidate);
    var handle := pads[candidate].padHandle;
    var next := if used then routes else routes + [Route(s, candidate, handle)];
    AimOf(sources, pads, s, candidate);
    TakenIff(sources, pads, routes, s, handle);
    if used {
      Extended(sources, pads, routes, s, routes);
    } else {
      assert RouteOk(sources, pads, next[|routes|]);
      Extended(sources, pads, routes, s, next);
    }
  }

  /** The slot numbers are stored as bytes, so the table of pads has at most 256 entries. */
  method SelectRoutes(sources: seq<Source>, pads: seq<GamePad>, routes: array<Route>, results: array<Verdict>)
    returns (count: nat)
    requires routes.Length == results.Length == MAX_ROUTES && |pads| <= 256
    modifies routes, results
    ensures var n := if |sources| > MAX_ROUTES then MAX_ROUTES else |sources|;
      && count <= n
      && (forall s :: 0 <= s < n ==> Judged(sources, pads, s, results[s]))
      && Routed(sources, pads, routes[..count], n)
      && (forall s :: n <= s < MAX_ROUTES ==> results[s] == old(results[s]))
      && forall i :: count <= i < MAX_ROUTES ==> routes[i] == old(routes[i])
  {
    hide Routed, Aims, Taken, Usable, OnlyTarget, Judged;
    var n := if |sources| > MAX_ROUTES then MAX_ROUTES else |sources|;
    count := 0;
    NothingRouted(sources, pads);
    for s := 0 to n
      invariant count <= s
      invariant forall t :: 0 <= t < s ==> Judged(sources, pads, t, results[t])
      invariant Routed(sources, pads, routes[..count], s)
      invariant forall t :: n <= t < MAX_ROUTES ==> results[t] == old(results[t])
      invariant forall i :: count <= i < MAX_ROUTES ==> routes[i] == old(routes[i])
    {
      ghost var before := routes[..count];
      var verdict, candidate := JudgeSource(sources, pads, s);
      if verdict != Ok {
        results[s] := verdict;
        Skipped(sources, pads, before, s, verdict);
        continue;
      }
      TargetInRange(sources[s], pads, candidate);
      var handle := pads[candidate].padHandle;
      var used := LeadsTo(routes[..count], handle);
      Decided(sources, pads, before, s, candidate, used);
      if used {
        results[s] := TargetAlreadyUsed;
        continue;
      }
      routes[count] := Route(s, candidate, handle);
      results[s] := Ok;
      count := count + 1;
      assert routes[..count] == before + [Route(s, candidate, handle)];
    }
  }

  lemma TargetInRange(source: Source, pads: seq<GamePad>, g: nat)
    requires OnlyTarget(source, pads, g)
    ensures g < |pads|
  {
  }

  /** A handle is taken exactly when a route already leads to it. */
  lemma TakenIff(sources: seq<Source>, pads: seq<GamePad>, routes: seq<Route>, s: nat, handle: int)
    requires s <= |sources| && |pads| <= 256 && Routed(sources, pads, routes, s)
    ensures Taken(sources, pads, s, handle) <==> exists i :: 0 <= i < |routes| && routes[i].padHandle == handle
  {
    if i :| 0 <= i < |routes| && routes[i].padHandle == handle {
      assert RouteOk(sources, pads, routes[i]);
      assert Aims(sources, pads, routes[i].sourceSlot, handle);
    }
  }

  lemma Extended(sources: seq<Source>, pads: seq<GamePad>, routes: seq<Route>, s: nat, next: seq<Route>)
    requires s < |sources| && |pads| <= 256 && Routed(sources, pads, routes, s)
    requires next == routes || (|next| == |routes| + 1 && next[..|routes|] == routes)
    requires next != routes ==> RouteOk(sources, pads, next[|routes|]) && next[|routes|].sourceSlot == s
    requires forall handle :: Aims(sources, pads, s, handle) ==> exists i :: 0 <= i < |next| && next[i].padHandle == handle
    ensures Routed(sources, pads, next, s + 1)
  {
    forall t, handle | 0 <= t < s + 1 && Aims(sources, pads, t, handle)
      ensures exists i :: 0 <= i < |next| && next[i].padHandle == handle
    {
      if t < s {
        var i :| 0 <= i < |routes| && routes[i].padHandle == handle;
        assert next[i] == routes[i];
      }
    }
  }
}
