/** The leased rumble and light contract between the core and an application that owns its pad.

    The application polls for an event and acknowledges what it did; leases, lifetimes and sessions decide what still
    counts. Every call carries the core's clock, which never runs backwards. */
module AppPad {
  import opened Wrappers

  const LEASE: nat := 1500
  const TTL: nat := 5000
  const UINT64_MAX: nat := 0xffff_ffff_ffff_ffff
  const NOT_CALLED: int := -2147483647

  datatype EventState = IdleEvent | Pending | Started | Complete | Failed | Cancelled | Expired

  datatype Light = Light(enabled: nat, effect: nat, period: nat, step: nat, r: nat, g: nat, b: nat)

  datatype Motors = Motors(large: nat, small: nat, on: nat, off: nat, repeats: nat)

  datatype Codes = Codes(mode: int, start: int, stop: int)

  datatype Poll = Poll(session: nat, generation: nat, connected: nat, caps: nat, readRc: int, handleRc: int)

  datatype Ack = Ack(session: nat, generation: nat, boot: nat, revision: nat, lightRc: int, eventId: nat, phase: nat,
                     codes: Codes, resetRc: int)

  datatype Reply = Reply(boot: nat, revision: nat, light: Light, lease: nat, eventId: nat, event: EventState, ttl: nat,
                         motors: Motors, stop: bool, generation: nat)

  datatype State = State(boot: nat, revision: nat, light: Light, session: nat, generation: nat, lastPoll: nat,
                         connected: nat, caps: nat, readRc: int, handleRc: int, nextId: nat, eventId: nat, event: EventState,
                         created: nat, started: nat, delivered: bool, motors: Motors, codes: Codes,
                         lightAck: nat, lightRc: int, resetRc: int)

  predicate Live(s: State) { s.event.Pending? || s.event.Started? }

  function Duration(m: Motors): int { m.on * m.repeats + m.off * (m.repeats - 1) }

  // ---- the operations on values --------------------------------------------------------------

  function Initial(boot: nat): State {
    var none := Codes(NOT_CALLED, NOT_CALLED, NOT_CALLED);
    State(boot, 1, Light(1, 0, 2000, 32, 0, 0, 0), 0, 0, 0, 0, 0, NOT_CALLED, NOT_CALLED, 0, 0, IdleEvent, 0, 0, false,
          Motors(0, 0, 0, 0, 0), none, 0, NOT_CALLED, NOT_CALLED)
  }

  /** What time alone ends, in the order the three tests are made. */
  function Aged(s: State, now: nat): State {
    var a := if s.session != 0 && now - s.lastPoll >= LEASE then
        s.(connected := 0, event := if Live(s) && s.delivered then Cancelled else s.event)
      else s;
    var b := if a.event.Pending? && now - a.created >= TTL then a.(event := Expired) else a;
    if b.event.Started? && now - b.started >= Duration(b.motors) + LEASE then b.(event := Expired) else b
  }

  function Stopped(s: State): State { if Live(s) then s.(event := Cancelled) else s }

  predicate LightValid(l: Light) {
    l.enabled <= 1 && l.effect <= 4 && 100 <= l.period <= 60000 && 16 <= l.step <= 1000 && l.r <= 255 && l.g <= 255 && l.b <= 255
  }

  function Configured(s: State, l: Light): Option<State> {
    if !LightValid(l) || s.revision >= UINT64_MAX then None
    else Some(s.(light := l, revision := s.revision + 1, lightAck := 0, lightRc := NOT_CALLED))
  }

  predicate MotorsValid(m: Motors) {
    && m.large <= 255 && m.small <= 255 && (m.large > 0 || m.small > 0) && 1 <= m.on <= 2000 && m.off <= 2000
    && 1 <= m.repeats <= 16 && Duration(m) <= 10000
  }

  /** The state a schedule leaves, and whether it was accepted; a refusal for being busy still ages the event. */
  function Scheduled(s: State, now: nat, m: Motors): (State, bool) {
    if !MotorsValid(m) || s.nextId >= UINT64_MAX then (s, false)
    else
      var a := Aged(s, now);
      if Live(a) then (a, false)
      else (a.(nextId := a.nextId + 1, eventId := a.nextId + 1, created := now, event := Pending, delivered := false,
               motors := m, codes := Codes(NOT_CALLED, NOT_CALLED, NOT_CALLED)), true)
  }

  predicate Rumbles(p: Poll) { p.connected != 0 && p.caps / 2 % 2 == 1 }

  predicate PollValid(s: State, now: nat, p: Poll) {
    && s.boot != 0 && p.session != 0 && p.generation != 0 && p.connected <= 1 && p.caps <= 7
    && !(s.session != 0 && p.session != s.session && now - s.lastPoll < LEASE)
    && !(p.session == s.session && p.generation < s.generation)
  }

  /** The part of a poll before the reply: time passes, and a new session or connection cancels what it did not get. */
  function Taken(s: State, now: nat, p: Poll): State {
    var a := Aged(s, now);
    var moved := a.session != p.session || a.generation != p.generation;
    var b := if (moved || p.connected == 0) && Live(a) && a.delivered then a.(event := Cancelled) else a;
    var c := if moved then b.(lightAck := 0, lightRc := NOT_CALLED) else b;
    c.(session := p.session, generation := p.generation, lastPoll := now, connected := p.connected, caps := p.caps,
       readRc := p.readRc, handleRc := p.handleRc)
  }

  function Polled(s: State, now: nat, p: Poll): State {
    var t := Taken(s, now, p);
    if t.eventId != 0 && Rumbles(p) && t.event.Pending? then t.(delivered := true) else t
  }

  function ReplyTo(s: State, now: nat, p: Poll): Reply {
    var t := Taken(s, now, p);
    var told := t.eventId != 0 && Rumbles(p);
    Reply(t.boot, t.revision, t.light, LEASE, if told then t.eventId else 0, t.event,
          if told && t.event.Pending? && now - t.created <= TTL then TTL - (now - t.created) else 0,
          if told then t.motors else Motors(0, 0, 0, 0, 0), !Live(t), p.generation)
  }

  predicate AckValid(s: State, now: nat, a: Ack) {
    && a.session == s.session && a.generation == s.generation && a.boot == s.boot && a.revision == s.revision && a.phase <= 4
    && s.session != 0 && now - s.lastPoll < LEASE && (a.phase != 0 ==> a.eventId == s.eventId && s.delivered)
    && (a.phase == 1 ==> Live(s) && a.codes.mode == 0 && a.codes.start == 0)
    && (s.event.Complete? && a.phase != 0 ==> a.phase == 2)
    && (a.phase == 2 ==> a.codes.mode == 0 && a.codes.start == 0 && a.codes.stop == 0)
  }

  function PhaseState(phase: nat): EventState {
    if phase == 1 then Started else if phase == 2 then Complete else if phase == 3 then Failed else Cancelled
  }

  function Acked(s: State, now: nat, a: Ack): State {
    var b := s.(lightAck := a.revision, lightRc := a.lightRc, resetRc := a.resetRc);
    if a.phase == 0 then b
    else
      b.(started := if a.phase == 1 && s.event.Pending? then now else s.started, codes := a.codes,
         event := if Live(s) then PhaseState(a.phase) else s.event)
  }

  // ---- what every state satisfies ------------------------------------------------------------

  /** `clock` is the latest time given to any call. */
  ghost predicate Ok(s: State, clock: nat) {
    && s.lastPoll <= clock && s.created <= clock && s.started <= clock && s.eventId == s.nextId <= UINT64_MAX
    && 1 <= s.revision <= UINT64_MAX && (s.event.IdleEvent? <==> s.eventId == 0) && LightValid(s.light)
    && (s.eventId != 0 ==> MotorsValid(s.motors))
    && (s.delivered ==> s.created <= s.lastPoll && s.session != 0)
    && (s.delivered && s.event.Pending? ==> s.lastPoll - s.created < TTL)
    && (s.event.Started? ==> s.delivered && s.created <= s.started < s.created + TTL + LEASE)
  }

  lemma InitialOk(boot: nat)
    ensures Ok(Initial(boot), 0)
  {
  }

  lemma AgedOk(s: State, clock: nat, now: nat)
    requires Ok(s, clock) && clock <= now
    ensures Ok(Aged(s, now), now)
    ensures var t := Aged(s, now);
      && t.eventId == s.eventId && t.delivered == s.delivered && t.session == s.session && t.generation == s.generation
      && t.created == s.created && (Live(t) ==> t == s.(connected := t.connected))
      && (t.event.Pending? ==> now - s.created < TTL) && t.boot == s.boot && t.nextId == s.nextId && t.motors == s.motors
  {
  }

  /** Time alone ends every event: eighteen seconds after it was scheduled none is live. */
  lemma NotLiveForLong(s: State, clock: nat, now: nat)
    requires Ok(s, clock) && clock <= now && now >= s.created + 18000
    ensures !Live(Aged(s, now))
  {
    if s.event.Started? {
      assert s.started < s.created + 6500 && Duration(s.motors) <= 10000;
    }
  }

  lemma TakenOk(s: State, clock: nat, now: nat, p: Poll)
    requires Ok(s, clock) && clock <= now && p.session != 0
    ensures Ok(Taken(s, now, p), now)
    ensures var t := Taken(s, now, p);
      && t.eventId == s.eventId && t.created == s.created && (t.event.Pending? ==> now - t.created < TTL)
      && t.lastPoll == now && t.session == p.session
  {
    hide Aged, Duration, LightValid, MotorsValid;
    AgedOk(s, clock, now);
  }

  lemma TimesKnown(s: State, clock: nat)
    requires Ok(s, clock)
    ensures s.lastPoll <= clock && s.created <= clock
  {
  }

  lemma PolledOk(s: State, clock: nat, now: nat, p: Poll)
    requires Ok(s, clock) && clock <= now && p.session != 0
    ensures Ok(Polled(s, now, p), now)
  {
    hide Taken, Duration, LightValid, MotorsValid;
    TakenOk(s, clock, now, p);
  }

  lemma AckedOk(s: State, clock: nat, now: nat, a: Ack)
    requires Ok(s, clock) && clock <= now && AckValid(s, now, a)
    ensures Ok(Acked(s, now, a), now)
  {
    hide Duration, LightValid, MotorsValid;
  }

  lemma ScheduledOk(s: State, clock: nat, now: nat, m: Motors)
    requires Ok(s, clock) && clock <= now
    ensures Ok(Scheduled(s, now, m).0, now)
  {
    hide Aged, Duration, LightValid, MotorsValid;
    AgedOk(s, clock, now);
  }

  // ---- the object ----------------------------------------------------------------------------

  class AppPad {
    var state: State
    ghost var clock: nat

    ghost predicate Valid()
      reads this
    {
      Ok(state, clock)
    }

    constructor (boot: nat)
      ensures Valid() && state == Initial(boot) && clock == 0
    {
      state, clock := Initial(boot), 0;
    }

    method Expire(now: nat)
      requires Valid() && clock <= now
      modifies this
      ensures Valid() && clock == now && state == Aged(old(state), now)
    {
      AgedOk(state, clock, now);
      var s := state;
      if s.session != 0 && now - s.lastPoll >= LEASE {
        var cancel := Live(s) && s.delivered;
        s := s.(connected := 0);
        if cancel { s := s.(event := Cancelled); }
      }
      if s.event.Pending? && now - s.created >= TTL { s := s.(event := Expired); }
      if s.event.Started? && now - s.started >= Duration(s.motors) + LEASE { s := s.(event := Expired); }
      state, clock := s, now;
    }

    method Stop()
      requires Valid()
      modifies this
      ensures Valid() && clock == old(clock) && state == Stopped(old(state))
    {
      if Live(state) { state := state.(event := Cancelled); }
    }

    method Configure(light: Light) returns (ok: bool)
      requires Valid()
      modifies this
      ensures Valid() && clock == old(clock) && ok == Configured(old(state), light).Some?
      ensures state == if ok then Configured(old(state), light).value else old(state)
    {
      if !LightValid(light) || state.revision >= UINT64_MAX { return false; }
      state := state.(light := light, revision := state.revision + 1, lightAck := 0, lightRc := NOT_CALLED);
      return true;
    }

    method Schedule(now: nat, motors: Motors) returns (ok: bool)
      requires Valid() && clock <= now
      modifies this
      ensures Valid() && old(clock) <= clock <= now && (state, ok) == Scheduled(old(state), now, motors)
    {
      if !MotorsValid(motors) || state.nextId >= UINT64_MAX { return false; }
      Expire(now);
      if Live(state) { return false; }
      state := state.(nextId := state.nextId + 1, eventId := state.nextId + 1, created := now, event := Pending,
                      delivered := false, motors := motors, codes := Codes(NOT_CALLED, NOT_CALLED, NOT_CALLED));
      return true;
    }

    method Status(now: nat) returns (s: State)
      requires Valid() && clock <= now
      modifies this
      ensures Valid() && clock == now && s == state == Aged(old(state), now)
    {
      Expire(now);
      s := state;
    }

    /** A pending event is handed over with the time it has left. */
    method TakePoll(now: nat, p: Poll) returns (r: Option<Reply>)
      requires Valid() && clock <= now
      modifies this
      ensures Valid() && old(clock) <= clock <= now && r.Some? == PollValid(old(state), now, p)
      ensures r.Some? ==> state == Polled(old(state), now, p) && r.value == ReplyTo(old(state), now, p)
      ensures r.None? ==> state == old(state)
    {
      hide Aged, Ok, Duration;
      ghost var was, before := state, clock;
      if state.boot == 0 || p.session == 0 || p.generation == 0 || p.connected > 1 || p.caps > 7 { return None; }
      if state.session != 0 && p.session != state.session && now - state.lastPoll < LEASE { return None; }
      if p.session == state.session && p.generation < state.generation { return None; }
      TimesKnown(was, before);
      TakenOk(was, before, now, p);
      PolledOk(was, before, now, p);
      AgedOk(was, before, now);
      Expire(now);
      var moved := state.session != p.session || state.generation != p.generation;
      if (moved || p.connected == 0) && Live(state) && state.delivered { state := state.(event := Cancelled); }
      if moved { state := state.(lightAck := 0, lightRc := NOT_CALLED); }
      state := state.(session := p.session, generation := p.generation, lastPoll := now, connected := p.connected,
                      caps := p.caps, readRc := p.readRc, handleRc := p.handleRc);
      var reply := Reply(state.boot, state.revision, state.light, LEASE, 0, state.event, 0, Motors(0, 0, 0, 0, 0), !Live(state), p.generation);
      if state.eventId != 0 && Rumbles(p) {
        reply := reply.(eventId := state.eventId, motors := state.motors);
        if state.event.Pending? {
          reply := reply.(ttl := TTL - (now - state.created));
          state := state.(delivered := true);
        }
      }
      return Some(reply);
    }

    method TakeAck(now: nat, a: Ack) returns (ok: bool)
      requires Valid() && clock <= now
      modifies this
      ensures Valid() && old(clock) <= clock <= now && ok == AckValid(old(state), now, a)
      ensures state == if ok then Acked(old(state), now, a) else old(state)
    {
      if a.session != state.session || a.generation != state.generation || a.boot != state.boot || a.revision != state.revision
         || a.phase > 4 || state.session == 0 || now - state.lastPoll >= LEASE
         || (a.phase != 0 && (a.eventId != state.eventId || !state.delivered)) {
        return false;
      }
      if a.phase == 1 && !Live(state) { return false; }
      if state.event.Complete? && a.phase != 0 && a.phase != 2 { return false; }
      if a.phase == 1 && (a.codes.mode != 0 || a.codes.start != 0) { return false; }
      if a.phase == 2 && (a.codes.mode != 0 || a.codes.start != 0 || a.codes.stop != 0) { return false; }
      clock := now;
      state := state.(lightAck := a.revision, lightRc := a.lightRc, resetRc := a.resetRc);
      if a.phase != 0 {
        if a.phase == 1 && state.event.Pending? { state := state.(started := now); }
        state := state.(codes := a.codes);
        if Live(state) { state := state.(event := PhaseState(a.phase)); }
      }
      return true;
    }
  }

  // ---- runs ----------------------------------------------------------------------------------

  datatype Call =
    | DoStop | DoConfigure(light: Light) | DoSchedule(motors: Motors) | DoStatus | DoPoll(poll: Poll) | DoAck(ack: Ack)

  function Next(s: State, now: nat, c: Call): State {
    match c
    case DoStop => Stopped(s)
    case DoConfigure(light) => (match Configured(s, light) case Some(t) => t case None => s)
    case DoSchedule(motors) => Scheduled(s, now, motors).0
    case DoStatus => Aged(s, now)
    case DoPoll(p) => if PollValid(s, now, p) then Polled(s, now, p) else s
    case DoAck(a) => if AckValid(s, now, a) then Acked(s, now, a) else s
  }

  lemma NextOk(s: State, clock: nat, now: nat, c: Call)
    requires Ok(s, clock) && clock <= now
    ensures Ok(Next(s, now, c), now)
  {
    hide Aged, Scheduled, Polled, Acked, Duration, MotorsValid;
    AgedOk(s, clock, now);
    match c {
      case DoSchedule(m) => ScheduledOk(s, clock, now, m);
      case DoPoll(p) => if PollValid(s, now, p) { PolledOk(s, clock, now, p); }
      case DoAck(a) => if AckValid(s, now, a) { AckedOk(s, clock, now, a); }
      case _ =>
    }
  }

  /** States, calls and their times, the clock never running backwards. */
  ghost predicate IsRun(ss: seq<State>, calls: seq<Call>, times: seq<nat>) {
    && |ss| == |calls| + 1 == |times| + 1 && (exists boot :: ss[0] == Initial(boot))
    && (forall i, j :: 0 <= i <= j < |times| ==> times[i] <= times[j])
    && forall i :: 0 <= i < |calls| ==> ss[i + 1] == Next(ss[i], times[i], calls[i])
  }

  function ClockAt(times: seq<nat>, n: nat): nat
    requires n <= |times|
  {
    if n == 0 then 0 else times[n - 1]
  }

  lemma {:induction false} RunOk(ss: seq<State>, calls: seq<Call>, times: seq<nat>, n: nat)
    requires IsRun(ss, calls, times) && n < |ss|
    ensures Ok(ss[n], ClockAt(times, n))
  {
    hide Ok, Next;
    if n == 0 {
      var boot :| ss[0] == Initial(boot);
      InitialOk(boot);
    } else {
      RunOk(ss, calls, times, n - 1);
      NextOk(ss[n - 1], ClockAt(times, n - 1), times[n - 1], calls[n - 1]);
    }
  }

  /** One call: ids never fall, and an event that is over stays over until the next id. */
  lemma NextNeverRevives(s: State, clock: nat, now: nat, c: Call)
    requires Ok(s, clock) && clock <= now
    ensures var t := Next(s, now, c);
      s.eventId <= t.eventId && (t.eventId == s.eventId && !Live(s) ==> !Live(t))
      && (t.eventId == s.eventId ==> t.created == s.created)
  {
    hide Duration;
    AgedOk(s, clock, now);
  }

  /** Event ids only grow, and a finished event never becomes live again. */
  lemma {:induction false} NeverRevives(ss: seq<State>, calls: seq<Call>, times: seq<nat>, i: nat, j: nat)
    requires IsRun(ss, calls, times) && i <= j < |ss|
    ensures ss[i].eventId <= ss[j].eventId
    ensures ss[j].eventId == ss[i].eventId ==> ss[j].created == ss[i].created
    ensures ss[j].eventId == ss[i].eventId && !Live(ss[i]) ==> !Live(ss[j])
    decreases j
  {
    hide Ok, Next, Live;
    if i < j {
      NeverRevives(ss, calls, times, i, j - 1);
      RunOk(ss, calls, times, j - 1);
      NextNeverRevives(ss[j - 1], ClockAt(times, j - 1), times[j - 1], calls[j - 1]);
    }
  }

  /** A scheduled event has a new id and is alone: its predecessor was over. */
  lemma ScheduledIsNew(ss: seq<State>, calls: seq<Call>, times: seq<nat>, n: nat, i: nat)
    requires IsRun(ss, calls, times) && n < |calls| && calls[n].DoSchedule? && i <= n
    requires Scheduled(ss[n], times[n], calls[n].motors).1
    ensures ss[n + 1].eventId > ss[i].eventId && ss[n + 1].event.Pending? && !Live(Aged(ss[n], times[n]))
  {
    NeverRevives(ss, calls, times, i, n);
    RunOk(ss, calls, times, n);
    AgedOk(ss[n], ClockAt(times, n), times[n]);
  }

  /** The poll at which a pending event was handed over. */
  predicate HandsOver(s: State, now: nat, c: Call) {
    c.DoPoll? && PollValid(s, now, c.poll) && Rumbles(c.poll) && Taken(s, now, c.poll).event.Pending?
  }

  /** Call k handed the event to the session and generation that still hold the lease at n. */
  ghost predicate HandedOver(ss: seq<State>, calls: seq<Call>, times: seq<nat>, k: nat, n: nat)
    requires |ss| == |calls| + 1 == |times| + 1 && n < |ss|
  {
    && k < n && HandsOver(ss[k], times[k], calls[k]) && ss[k + 1].eventId == ss[n].eventId
    && calls[k].poll.session == ss[n].session && calls[k].poll.generation == ss[n].generation
  }

  lemma JustHanded(ss: seq<State>, calls: seq<Call>, times: seq<nat>, n: nat)
    requires |ss| == |calls| + 1 == |times| + 1 && 0 < n < |ss| && ss[n] == Next(ss[n - 1], times[n - 1], calls[n - 1])
    requires HandsOver(ss[n - 1], times[n - 1], calls[n - 1])
    ensures HandedOver(ss, calls, times, n - 1, n)
  {
    hide Duration;
  }

  lemma RunShape(ss: seq<State>, calls: seq<Call>, times: seq<nat>, n: nat)
    requires IsRun(ss, calls, times) && n < |ss|
    ensures |ss| == |calls| + 1 == |times| + 1 && (n == 0 ==> !ss[0].delivered)
    ensures n > 0 ==> ss[n] == Next(ss[n - 1], times[n - 1], calls[n - 1]) && ClockAt(times, n - 1) <= times[n - 1]
  {
    hide Next;
  }

  /** While an event is live, delivered means delivered to the current session and generation. */
  lemma {:induction false} DeliveredBy(ss: seq<State>, calls: seq<Call>, times: seq<nat>, n: nat)
    requires IsRun(ss, calls, times) && n < |ss| && ss[n].delivered && Live(ss[n])
    ensures exists k :: HandedOver(ss, calls, times, k, n)
  {
    hide *;
    RunShape(ss, calls, times, n);
    if n > 0 {
      var s, now, c := ss[n - 1], times[n - 1], calls[n - 1];
      RunOk(ss, calls, times, n - 1);
      if HandsOver(s, now, c) {
        JustHanded(ss, calls, times, n);
      } else {
        StaysDelivered(s, ClockAt(times, n - 1), now, c);
        DeliveredBy(ss, calls, times, n - 1);
        var k :| HandedOver(ss, calls, times, k, n - 1);
        StillHeld(ss, calls, times, k, n);
      }
    }
  }

  lemma StillHeld(ss: seq<State>, calls: seq<Call>, times: seq<nat>, k: nat, n: nat)
    requires |ss| == |calls| + 1 == |times| + 1 && 0 < n < |ss| && HandedOver(ss, calls, times, k, n - 1)
    requires ss[n].eventId == ss[n - 1].eventId && ss[n].session == ss[n - 1].session && ss[n].generation == ss[n - 1].generation
    ensures HandedOver(ss, calls, times, k, n)
  {
    hide HandsOver;
  }

  lemma StaysDelivered(s: State, clock: nat, now: nat, c: Call)
    requires Ok(s, clock) && clock <= now && !HandsOver(s, now, c)
    requires Next(s, now, c).delivered && Live(Next(s, now, c))
    ensures var t := Next(s, now, c);
      s.delivered && Live(s) && t.eventId == s.eventId && t.session == s.session && t.generation == s.generation
  {
    hide Duration;
    AgedOk(s, clock, now);
  }

  /** The acknowledgement that starts an event: from the application it was handed to, in time. */
  ghost predicate StartedBy(ss: seq<State>, calls: seq<Call>, times: seq<nat>, j: nat, n: nat)
    requires |ss| == |calls| + 1 == |times| + 1 && n < |ss|
  {
    && j < n && calls[j].DoAck? && AckValid(ss[j], times[j], calls[j].ack) && calls[j].ack.phase == 1
    && ss[j].event.Pending? && ss[j].eventId == ss[n].eventId == calls[j].ack.eventId && ss[j].created == ss[n].created
    && times[j] < ss[j].created + TTL + LEASE
    && exists k :: 0 <= k < j && HandedOver(ss, calls, times, k, j) && calls[k].poll.session == calls[j].ack.session
                   && calls[k].poll.generation == calls[j].ack.generation
  }

  /** Main result: an event is started only by an acknowledgement from the session and generation it was handed to,
      less than 6.5 seconds after it was scheduled. */
  lemma {:induction false} StartedOnlyByAck(ss: seq<State>, calls: seq<Call>, times: seq<nat>, n: nat)
    requires IsRun(ss, calls, times) && n < |ss| && ss[n].event.Started?
    ensures exists j :: StartedBy(ss, calls, times, j, n)
  {
    hide Duration, Next, AckValid, HandsOver, Ok, Aged;
    if n > 0 {
      var s, now, c := ss[n - 1], times[n - 1], calls[n - 1];
      RunOk(ss, calls, times, n - 1);
      NextNeverRevives(s, ClockAt(times, n - 1), now, c);
      StartStep(s, ClockAt(times, n - 1), now, c);
      if s.event.Started? && s.eventId == ss[n].eventId {
        StartedOnlyByAck(ss, calls, times, n - 1);
        var j :| StartedBy(ss, calls, times, j, n - 1);
        assert StartedBy(ss, calls, times, j, n);
      } else {
        DeliveredBy(ss, calls, times, n - 1);
        var k :| HandedOver(ss, calls, times, k, n - 1);
        AckNames(s, now, c.ack);
        assert StartedBy(ss, calls, times, n - 1, n);
      }
    }
  }

  lemma AckNames(s: State, now: nat, a: Ack)
    requires AckValid(s, now, a) && a.phase == 1
    ensures a.session == s.session && a.generation == s.generation && a.eventId == s.eventId
  {
  }

  lemma StartStep(s: State, clock: nat, now: nat, c: Call)
    requires Ok(s, clock) && clock <= now && Next(s, now, c).event.Started?
    ensures (s.event.Started? && Next(s, now, c).eventId == s.eventId)
         || (c.DoAck? && AckValid(s, now, c.ack) && c.ack.phase == 1 && s.event.Pending? && s.delivered
             && Next(s, now, c).eventId == s.eventId && now < s.created + TTL + LEASE)
  {
    hide Duration;
    AgedOk(s, clock, now);
  }

  /** No status, schedule or accepted poll eighteen seconds after an event was scheduled finds it live. */
  lemma SeenNoLater(ss: seq<State>, calls: seq<Call>, times: seq<nat>, n: nat)
    requires IsRun(ss, calls, times) && n < |calls| && times[n] >= ss[n].created + 18000
    requires calls[n].DoStatus? || (calls[n].DoPoll? && PollValid(ss[n], times[n], calls[n].poll))
             || (calls[n].DoSchedule? && MotorsValid(calls[n].motors) && ss[n].nextId < UINT64_MAX)
    ensures ss[n + 1].eventId == ss[n].eventId ==> !Live(ss[n + 1])
  {
    hide Duration;
    RunOk(ss, calls, times, n);
    NotLiveForLong(ss[n], ClockAt(times, n), times[n]);
    AgedOk(ss[n], ClockAt(times, n), times[n]);
  }
}
