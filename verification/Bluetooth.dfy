/** Which Bluetooth pad occurrence may deliver input to the core or receive its output.

    One slot of the engine: the engine thread handles host events and queued output one after the other, while API
    calls interleave under the lock. Only a loss can come in between: sending for another slot may find the transport
    dead, which disconnects this slot's pad while a request taken from its queue still waits to be served. Every
    critical section and every call out of the engine is a step. The host is not trusted: it may report any origin at
    any time. The callbacks made, in order, are the `log`. */
module Bluetooth {
  import opened Wrappers

  /** One connection of one pad: the host numbers occurrences from 1. */
  datatype Origin = Origin(occurrence: nat, handle: nat)

  datatype Request = Request(origin: Origin, payload: nat)

  /** What crosses the boundary: the core's answer to ready, input, loss, and output sent to a pad. */
  datatype Event = Ready(origin: Origin, accepted: bool) | Input(origin: Origin) | Lost(origin: Origin)
                 | Output(pad: Origin, request: Request)

  datatype Engine =
    | Idle
    | Announcing(origin: Origin) | Deciding(origin: Origin, accepted: bool)
    | Reconciling(then_: Option<Origin>) | Renewing(origin: Origin, then_: Option<Origin>) | Rejecting(then_: Option<Origin>)
    | Checking(origin: Origin) | Sending(origin: Origin)
    | Losing(origin: Origin, held: Option<Request>) | Telling(origin: Origin, held: Option<Request>)
    | Serving(request: Request) | Applying(request: Request, pad: Origin)

  /** `queued` collects the requests accepted so far. */
  datatype World = World(origin: Option<Origin>, admitted: bool, live: bool, pending: Option<Request>, engine: Engine,
                         log: seq<Event>, queued: set<Request>)

  datatype Action =
    | Connect(origin: Origin) | Answer(accepted: bool) | Decide
    | HostInput(origin: Origin) | Refresh | Reconcile(host: Option<Origin>, changed: bool) | AnswerAgain(accepted: bool) | Reject
    | Check | Send
    | Disconnect(origin: Origin) | Clear | TellLost
    | Service | Match(host: Option<Origin>) | ApplyOutput
    | SetOutput(origin: Origin, payload: nat) | SetVirtual(origin: Origin, live: bool)

  predicate Admits(w: World, o: Origin) { w.admitted && w.origin == Some(o) }

  predicate Named(o: Origin) { o.occurrence > 0 && o.handle <= 0xfff }

  /** A connection that is older than the slot's, or contradicts it, is ignored. */
  predicate Stale(w: World, o: Origin) {
    w.origin.Some? && (o.occurrence < w.origin.value.occurrence
                       || (o.occurrence == w.origin.value.occurrence && o.handle != w.origin.value.handle))
  }

  predicate Enabled(w: World, a: Action) {
    match a
    case Connect(_) => w.engine.Idle?
    case Answer(_) => w.engine.Announcing?
    case Decide => w.engine.Deciding?
    case HostInput(_) => w.engine.Idle?
    case Refresh => w.engine.Idle?
    case Reconcile(_, _) => w.engine.Reconciling?
    case AnswerAgain(_) => w.engine.Renewing?
    case Reject => w.engine.Rejecting?
    case Check => w.engine.Checking?
    case Send => w.engine.Sending?
    case Disconnect(_) => w.engine.Idle? || w.engine.Serving?
    case Clear => w.engine.Losing?
    case TellLost => w.engine.Telling?
    case Service => w.engine.Idle?
    case Match(_) => w.engine.Serving?
    case ApplyOutput => w.engine.Applying?
    case SetOutput(_, _) => true
    case SetVirtual(_, _) => true
  }

  function Continue(then_: Option<Origin>): Engine {
    match then_
    case None => Idle
    case Some(o) => Checking(o)
  }

  function Resume(held: Option<Request>): Engine {
    match held
    case None => Idle
    case Some(r) => Serving(r)
  }

  function Apply(w: World, a: Action): World
    requires Enabled(w, a)
  {
    match a
    case Connect(o) =>
      if !Named(o) || Stale(w, o) then w
      else w.(live := false, pending := None, origin := Some(o), admitted := false, engine := Announcing(o))
    case Answer(ok) =>
      w.(log := w.log + [Ready(w.engine.origin, ok)], engine := Deciding(w.engine.origin, ok))
    case Decide => w.(admitted := w.engine.accepted, engine := Idle)
    case HostInput(o) => w.(engine := Reconciling(Some(o)))
    case Refresh => w.(engine := Reconciling(None))
    case Reconcile(host, changed) =>
      if host.Some? && Admits(w, host.value) && changed then w.(engine := Renewing(host.value, w.engine.then_))
      else w.(engine := Continue(w.engine.then_))
    case AnswerAgain(ok) =>
      w.(log := w.log + [Ready(w.engine.origin, ok)],
         engine := if ok then Continue(w.engine.then_) else Rejecting(w.engine.then_))
    case Reject => w.(admitted := false, pending := None, live := false, engine := Continue(w.engine.then_))
    case Check => w.(engine := if Admits(w, w.engine.origin) then Sending(w.engine.origin) else Idle)
    case Send => w.(log := w.log + [Input(w.engine.origin)], engine := Idle)
    case Disconnect(o) =>
      if w.origin != Some(o) then w
      else
        var held := if w.engine.Serving? then Some(w.engine.request) else None;
        w.(live := false, pending := None, engine := Losing(o, held))
    case Clear => w.(admitted := false, origin := None, engine := Telling(w.engine.origin, w.engine.held))
    case TellLost => w.(log := w.log + [Lost(w.engine.origin)], engine := Resume(w.engine.held))
    case Service =>
      if w.pending.None? then w else w.(engine := Serving(w.pending.value), pending := None)
    case Match(host) =>
      var r := w.engine.request;
      w.(engine := if Admits(w, r.origin) && host == Some(r.origin) then Applying(r, host.value) else Idle)
    case ApplyOutput => w.(log := w.log + [Output(w.engine.pad, w.engine.request)], engine := Idle)
    case SetOutput(o, payload) =>
      if !Admits(w, o) then w
      else w.(pending := Some(Request(o, payload)), queued := w.queued + {Request(o, payload)})
    case SetVirtual(o, live) => if !Admits(w, o) then w else w.(live := live)
  }

  ghost predicate Initial(w: World) { w == World(None, false, false, None, Idle, [], {}) }

  // ---- authority, read off the log alone -----------------------------------------------------

  /** The origin whose ready was accepted and not since withdrawn. */
  function Authorised(log: seq<Event>): Option<Origin> {
    if log == [] then None
    else
      match log[|log| - 1]
      case Ready(o, accepted) => if accepted then Some(o) else None
      case Lost(_) => None
      case _ => Authorised(log[..|log| - 1])
  }

  /** Entry j accepts the origin, and nothing before entry k withdraws or replaces it. */
  predicate Stands(log: seq<Event>, o: Origin, j: nat, k: nat) {
    && j < k <= |log| && log[j] == Ready(o, true)
    && forall i :: j < i < k ==> !log[i].Ready? && !log[i].Lost?
  }

  /** Spelled out: an accepted ready for that origin, with no later ready or loss of any. */
  lemma {:induction false} AuthorisedMeans(log: seq<Event>, o: Origin)
    ensures Authorised(log) == Some(o) <==> exists j :: Stands(log, o, j, |log|)
  {
    if log != [] {
      var n := |log| - 1;
      var front := log[..n];
      AuthorisedMeans(front, o);
      if !log[n].Ready? && !log[n].Lost? {
        if Authorised(log) == Some(o) {
          var j :| Stands(front, o, j, n);
          assert Stands(log, o, j, n + 1);
        }
        if j :| Stands(log, o, j, |log|) {
          assert Stands(front, o, j, n);
        }
      } else if log[n] == Ready(o, true) {
        assert Stands(log, o, n, n + 1);
      }
    }
  }

  /** Every callback in the log was authorised when it was made. */
  ghost predicate LogOk(log: seq<Event>, queued: set<Request>) {
    forall k :: 0 <= k < |log| ==>
      match log[k]
      case Input(o) => Authorised(log[..k]) == Some(o)
      case Output(pad, r) => Authorised(log[..k]) == Some(pad) && r.origin == pad && r in queued
      case _ => true
  }

  /** Admission is exactly what the log authorises. */
  predicate Synced(w: World) { Authorised(w.log) == if w.admitted then w.origin else None }

  ghost predicate EngineOk(w: World) {
    match w.engine
    case Announcing(o) => w.origin == Some(o) && !w.admitted
    case Deciding(o, accepted) => w.origin == Some(o) && !w.admitted && Authorised(w.log) == if accepted then Some(o) else None
    case Rejecting(_) => Authorised(w.log) == None
    case Telling(_, held) => !w.admitted && w.origin.None? && (held.Some? ==> held.value in w.queued)
    case Renewing(o, _) => Synced(w) && Admits(w, o)
    case Sending(o) => Synced(w) && Admits(w, o)
    case Losing(o, held) => Synced(w) && w.origin == Some(o) && (held.Some? ==> held.value in w.queued)
    case Serving(r) => Synced(w) && r in w.queued
    case Applying(r, pad) => Synced(w) && Admits(w, r.origin) && pad == r.origin && r in w.queued
    case _ => Synced(w)
  }

  ghost predicate Ok(w: World) {
    && LogOk(w.log, w.queued) && (w.admitted ==> w.origin.Some?) && (w.pending.Some? ==> w.pending.value in w.queued)
    && EngineOk(w)
  }

  lemma LogAppend(log: seq<Event>, e: Event, queued: set<Request>)
    requires LogOk(log, queued)
    requires match e
             case Input(o) => Authorised(log) == Some(o)
             case Output(pad, r) => Authorised(log) == Some(pad) && r.origin == pad && r in queued
             case _ => true
    ensures LogOk(log + [e], queued)
    ensures Authorised(log + [e]) == match e
      { case Ready(o, accepted) => (if accepted then Some(o) else None) case Lost(_) => None case _ => Authorised(log) }
  {
    var more := log + [e];
    assert more[..|log|] == log;
    assert forall k :: 0 <= k < |log| ==> more[k] == log[k] && more[..k] == log[..k];
  }

  lemma QueueMore(log: seq<Event>, queued: set<Request>, r: Request)
    requires LogOk(log, queued)
    ensures LogOk(log, queued + {r})
  {
  }

  /** Every step keeps the engine's admission in step with what the log authorises. */
  lemma Kept(w: World, a: Action)
    requires Ok(w) && Enabled(w, a)
    ensures Ok(Apply(w, a))
  {
    hide LogOk, Authorised, Stale;
    match a {
      case Answer(ok) => LogAppend(w.log, Ready(w.engine.origin, ok), w.queued);
      case AnswerAgain(ok) => LogAppend(w.log, Ready(w.engine.origin, ok), w.queued);
      case Send => LogAppend(w.log, Input(w.engine.origin), w.queued);
      case TellLost => LogAppend(w.log, Lost(w.engine.origin), w.queued);
      case ApplyOutput => LogAppend(w.log, Output(w.engine.pad, w.engine.request), w.queued);
      case SetOutput(o, payload) => QueueMore(w.log, w.queued, Request(o, payload));
      case _ =>
    }
  }

  // ---- runs ----------------------------------------------------------------------------------

  ghost predicate IsRun(ws: seq<World>, acts: seq<Action>) {
    && |ws| == |acts| + 1 && Initial(ws[0])
    && forall i :: 0 <= i < |acts| ==> Enabled(ws[i], acts[i]) && ws[i + 1] == Apply(ws[i], acts[i])
  }

  lemma {:induction false} RunOk(ws: seq<World>, acts: seq<Action>, n: nat)
    requires IsRun(ws, acts) && n < |ws|
    ensures Ok(ws[n])
  {
    hide Enabled, Apply;
    if n > 0 {
      hide Ok;
      RunOk(ws, acts, n - 1);
      Kept(ws[n - 1], acts[n - 1]);
    }
  }

  /** Main result: whatever the host reports and whenever API calls arrive, input reaches the core only between an
      accepted ready for exactly that origin and its rejection, replacement or loss. */
  lemma InputOnlyWhileReady(ws: seq<World>, acts: seq<Action>, n: nat, k: nat, o: Origin)
    requires IsRun(ws, acts) && n < |ws| && k < |ws[n].log| && ws[n].log[k] == Input(o)
    ensures exists j :: Stands(ws[n].log, o, j, k)
  {
    hide IsRun, Authorised;
    RunOk(ws, acts, n);
    var log := ws[n].log;
    AuthorisedMeans(log[..k], o);
    var j :| Stands(log[..k], o, j, k);
    assert Stands(log, o, j, k);
  }

  /** Queued output goes to the pad occurrence it was queued for, while that is still admitted, or nowhere. */
  lemma OutputOnlyToItsPad(ws: seq<World>, acts: seq<Action>, n: nat, k: nat, pad: Origin, r: Request)
    requires IsRun(ws, acts) && n < |ws| && k < |ws[n].log| && ws[n].log[k] == Output(pad, r)
    ensures r.origin == pad && r in ws[n].queued && Authorised(ws[n].log[..k]) == Some(pad)
  {
    hide IsRun, Authorised;
    RunOk(ws, acts, n);
  }

  /** Between two steps of the engine, admission is exactly what the log says. */
  lemma AdmissionIsLogged(ws: seq<World>, acts: seq<Action>, n: nat, o: Origin)
    requires IsRun(ws, acts) && n < |ws| && ws[n].engine.Idle?
    ensures Admits(ws[n], o) <==> Authorised(ws[n].log) == Some(o)
  {
    hide IsRun, Authorised;
    RunOk(ws, acts, n);
  }

  // ---- a pad that behaves --------------------------------------------------------------------

  /** Actions taken one after the other, each while it is enabled. */
  ghost predicate Leads(w: World, acts: seq<Action>, v: World)
    decreases |acts|
  {
    if acts == [] then v == w else Enabled(w, acts[0]) && Leads(Apply(w, acts[0]), acts[1..], v)
  }

  lemma Next(w: World, acts: seq<Action>, v: World)
    requires acts != [] && Enabled(w, acts[0]) && Leads(Apply(w, acts[0]), acts[1..], v)
    ensures Leads(w, acts, v)
  {
  }

  /** A connection that is not stale is announced, and admitted exactly if the core accepts it. */
  lemma ConnectionAnswered(w: World, o: Origin, accepted: bool) returns (v: World)
    requires w.engine.Idle? && Named(o) && !Stale(w, o)
    ensures Leads(w, [Connect(o), Answer(accepted), Decide], v) && v.engine.Idle? && v.log == w.log + [Ready(o, accepted)]
    ensures Admits(v, o) <==> accepted
  {
    var a := Apply(w, Connect(o));
    var b := Apply(a, Answer(accepted));
    v := Apply(b, Decide);
    assert Leads(b, [Decide], v) by { assert [Decide][1..] == []; }
    assert [Answer(accepted), Decide][1..] == [Decide];
    assert [Connect(o), Answer(accepted), Decide][1..] == [Answer(accepted), Decide];
  }

  /** A stale one changes nothing: an earlier occurrence, or another handle for the same. */
  lemma StaleIgnored(w: World, o: Origin, host: Origin)
    requires w.engine.Idle? && w.origin == Some(host)
    requires o.occurrence < host.occurrence || (o.occurrence == host.occurrence && o.handle != host.handle)
    ensures Apply(w, Connect(o)) == w
  {
  }

  /** Input of the admitted pad reaches the core, once, also when its description has changed and is accepted again. */
  lemma InputDelivered(w: World, o: Origin, changed: bool) returns (acts: seq<Action>, v: World)
    requires w.engine.Idle? && Admits(w, o)
    ensures Leads(w, acts, v) && v.engine.Idle? && Admits(v, o) && acts != [] && acts[0] == HostInput(o)
    ensures v.log == w.log + if changed then [Ready(o, true), Input(o)] else [Input(o)]
  {
    var a := Apply(w, HostInput(o));
    var b := Apply(a, Reconcile(Some(o), changed));
    var c := if changed then Apply(b, AnswerAgain(true)) else b;
    var d := Apply(c, Check);
    v := Apply(d, Send);
    assert Leads(d, [Send], v) by { assert [Send][1..] == []; }
    assert [Check, Send][1..] == [Send];
    Next(c, [Check, Send], v);
    var rest := if changed then [AnswerAgain(true), Check, Send] else [Check, Send];
    if changed {
      assert rest[1..] == [Check, Send];
      Next(b, rest, v);
    }
    assert ([Reconcile(Some(o), changed)] + rest)[1..] == rest;
    Next(a, [Reconcile(Some(o), changed)] + rest, v);
    acts := [HostInput(o), Reconcile(Some(o), changed)] + rest;
    assert acts[1..] == [Reconcile(Some(o), changed)] + rest;
    Next(w, acts, v);
  }

  /** Output set for the admitted pad reaches it. */
  lemma OutputDelivered(w: World, o: Origin, payload: nat) returns (v: World)
    requires w.engine.Idle? && Admits(w, o)
    ensures Leads(w, [SetOutput(o, payload), Service, Match(Some(o)), ApplyOutput], v) && v.engine.Idle? && Admits(v, o)
    ensures v.log == w.log + [Output(o, Request(o, payload))]
  {
    var a := Apply(w, SetOutput(o, payload));
    var b := Apply(a, Service);
    var c := Apply(b, Match(Some(o)));
    v := Apply(c, ApplyOutput);
    assert Leads(c, [ApplyOutput], v) by { assert [ApplyOutput][1..] == []; }
    assert [Match(Some(o)), ApplyOutput][1..] == [ApplyOutput];
    Next(b, [Match(Some(o)), ApplyOutput], v);
    assert [Service, Match(Some(o)), ApplyOutput][1..] == [Match(Some(o)), ApplyOutput];
    Next(a, [Service, Match(Some(o)), ApplyOutput], v);
    assert [SetOutput(o, payload), Service, Match(Some(o)), ApplyOutput][1..] == [Service, Match(Some(o)), ApplyOutput];
  }

  /** A loss withdraws the pad and is told, and nothing queued for it is kept. */
  lemma LossTold(w: World, o: Origin) returns (v: World)
    requires w.engine.Idle? && w.origin == Some(o)
    ensures Leads(w, [Disconnect(o), Clear, TellLost], v) && v.engine.Idle? && !v.admitted && v.origin.None? && v.pending.None?
    ensures v.log == w.log + [Lost(o)]
  {
    var a := Apply(w, Disconnect(o));
    var b := Apply(a, Clear);
    v := Apply(b, TellLost);
    assert Leads(b, [TellLost], v) by { assert [TellLost][1..] == []; }
    assert [Clear, TellLost][1..] == [TellLost];
    Next(a, [Clear, TellLost], v);
    assert [Disconnect(o), Clear, TellLost][1..] == [Clear, TellLost];
  }
}
