/** How an application's event comes to each of its ends, and what an application that behaves gets. */
module AppPadEnds {
  import opened AppPad

  /** A call that lets time act: a status, or a schedule or poll that is not refused at once. */
  predicate Ages(s: State, now: nat, c: Call) {
    || c.DoStatus? || (c.DoPoll? && PollValid(s, now, c.poll))
    || (c.DoSchedule? && MotorsValid(c.motors) && s.nextId < UINT64_MAX)
  }

  predicate LeaseLost(s: State, now: nat) { s.session != 0 && now - s.lastPoll >= LEASE }

  predicate Overdue(s: State, now: nat) {
    (s.event.Pending? && now - s.created >= TTL) || (s.event.Started? && now - s.started >= Duration(s.motors) + LEASE)
  }

  /** An accepted acknowledgement of that phase for an event that was handed over. */
  predicate Acknowledges(s: State, now: nat, c: Call, phase: nat) {
    c.DoAck? && AckValid(s, now, c.ack) && c.ack.phase == phase && c.ack.eventId == s.eventId && s.delivered
  }

  /** Somebody else's poll, a new connection's, or one without a pad. */
  predicate MovesOn(s: State, now: nat, c: Call) {
    && c.DoPoll? && PollValid(s, now, c.poll)
    && (c.poll.session != s.session || c.poll.generation != s.generation || c.poll.connected == 0)
  }

  /** What call c at that time did to end a live event in that way. */
  predicate Cause(s: State, now: nat, c: Call, end: EventState) {
    match end
    case Complete => Acknowledges(s, now, c, 2) && c.ack.codes == Codes(0, 0, 0)
    case Failed => Acknowledges(s, now, c, 3)
    case Cancelled =>
      || c.DoStop? || Acknowledges(s, now, c, 4)
      || (s.delivered && ((Ages(s, now, c) && LeaseLost(s, now)) || MovesOn(s, now, c)))
    case Expired => Ages(s, now, c) && Overdue(s, now)
    case _ => false
  }

  /** One call: a live event that is over afterwards was ended by the cause of its end, and one that is over stays as it
      ended. */
  lemma EndStep(s: State, clock: nat, now: nat, c: Call)
    requires Ok(s, clock) && clock <= now
    ensures var t := Next(s, now, c);
      t.eventId == s.eventId && !Live(t) ==> if Live(s) then Cause(s, now, c, t.event) else t.event == s.event
    ensures Next(s, now, c).eventId != s.eventId ==> Next(s, now, c).event.Pending?
  {
    hide Duration, MotorsValid, LightValid;
  }

  /** Time ends a live event exactly when the lease of one that was handed over is lost or the event is overdue. */
  lemma TimeEndsIff(s: State, now: nat)
    ensures Live(Aged(s, now)) <==> Live(s) && !(s.delivered && LeaseLost(s, now)) && !Overdue(s, now)
    ensures Live(s) && s.delivered && LeaseLost(s, now) ==> Aged(s, now).event.Cancelled?
    ensures Live(s) && !(s.delivered && LeaseLost(s, now)) && Overdue(s, now) ==> Aged(s, now).event.Expired?
  {
    hide Duration;
  }

  /** Call j ended the event that is over at n. */
  ghost predicate EndedBy(ss: seq<State>, calls: seq<Call>, times: seq<nat>, j: nat, n: nat)
    requires |ss| == |calls| + 1 == |times| + 1 && n < |ss|
  {
    j < n && Live(ss[j]) && ss[j].eventId == ss[n].eventId && Cause(ss[j], times[j], calls[j], ss[n].event)
  }

  /** Main result: COMPLETE, FAILED, CANCELLED and EXPIRED are each reached by their own causes only. */
  lemma {:induction false} EndedOnlyBy(ss: seq<State>, calls: seq<Call>, times: seq<nat>, n: nat)
    requires IsRun(ss, calls, times) && n < |ss| && !Live(ss[n]) && !ss[n].event.IdleEvent?
    ensures |ss| == |calls| + 1 == |times| + 1 && exists j :: EndedBy(ss, calls, times, j, n)
  {
    hide *;
    RunShape(ss, calls, times, n);
    if n == 0 {
      StartsIdle(ss, calls, times);
    } else {
      var s, now, c := ss[n - 1], times[n - 1], calls[n - 1];
      RunOk(ss, calls, times, n - 1);
      EndStep(s, ClockAt(times, n - 1), now, c);
      PendingLives(ss[n]);
      if Live(s) {
        assert EndedBy(ss, calls, times, n - 1, n) by { EndsHere(ss, calls, times, n); }
      } else {
        EndedOnlyBy(ss, calls, times, n - 1);
        var j :| EndedBy(ss, calls, times, j, n - 1);
        EndsLater(ss, calls, times, j, n);
      }
    }
  }

  lemma StartsIdle(ss: seq<State>, calls: seq<Call>, times: seq<nat>)
    requires IsRun(ss, calls, times)
    ensures ss[0].event.IdleEvent?
  {
  }

  lemma PendingLives(s: State)
    ensures s.event.Pending? ==> Live(s)
  {
  }

  lemma EndsHere(ss: seq<State>, calls: seq<Call>, times: seq<nat>, n: nat)
    requires |ss| == |calls| + 1 == |times| + 1 && 0 < n < |ss| && Live(ss[n - 1]) && ss[n].eventId == ss[n - 1].eventId
    requires Cause(ss[n - 1], times[n - 1], calls[n - 1], ss[n].event)
    ensures EndedBy(ss, calls, times, n - 1, n)
  {
    hide Cause;
  }

  lemma EndsLater(ss: seq<State>, calls: seq<Call>, times: seq<nat>, j: nat, n: nat)
    requires |ss| == |calls| + 1 == |times| + 1 && 0 < n < |ss| && EndedBy(ss, calls, times, j, n - 1)
    requires ss[n].eventId == ss[n - 1].eventId && ss[n].event == ss[n - 1].event
    ensures EndedBy(ss, calls, times, j, n)
  {
    hide Cause;
  }

  /** The acknowledgement that ended the event came from the session and generation it was handed to. */
  lemma AcknowledgedByReceiver(ss: seq<State>, calls: seq<Call>, times: seq<nat>, j: nat, n: nat)
    requires IsRun(ss, calls, times) && n < |ss| && EndedBy(ss, calls, times, j, n) && (ss[n].event.Complete? || ss[n].event.Failed?)
    ensures exists k: nat :: HandedOver(ss, calls, times, k, j) && calls[k].poll.session == calls[j].ack.session
                        && calls[k].poll.generation == calls[j].ack.generation
  {
    hide Next, PollValid, Taken;
    var s, a := ss[j], calls[j].ack;
    assert AckValid(s, times[j], a) && s.delivered && Live(s);
    DeliveredBy(ss, calls, times, j);
    var k: nat :| HandedOver(ss, calls, times, k, j);
    assert calls[k].poll.session == s.session == a.session && calls[k].poll.generation == s.generation == a.generation;
  }

  /** Conversely, every accepted acknowledgement for a live event has its effect. */
  lemma AckTakesEffect(s: State, now: nat, a: Ack)
    requires AckValid(s, now, a) && Live(s)
    ensures var t := Next(s, now, DoAck(a));
      && (a.phase == 0 ==> t.event == s.event) && (a.phase == 1 ==> t.event.Started?) && (a.phase == 2 ==> t.event.Complete?)
      && (a.phase == 3 ==> t.event.Failed?) && (a.phase == 4 ==> t.event.Cancelled?)
      && t.eventId == s.eventId && t.lightAck == s.revision && t.lightRc == a.lightRc && t.resetRc == a.resetRc
      && (a.phase != 0 ==> t.codes == a.codes)
  {
  }

  // ---- sessions ------------------------------------------------------------------------------

  /** The pad changes hands only by a poll, and only once the holder's lease is lost; within a session the generation
      never falls. */
  lemma SessionMoves(s: State, now: nat, c: Call)
    ensures var t := Next(s, now, c);
      && (t.session != s.session ==>
            c.DoPoll? && PollValid(s, now, c.poll) && t.session == c.poll.session != 0 && (s.session == 0 || LeaseLost(s, now)))
      && (t.session == s.session ==> t.generation >= s.generation)
  {
    hide Duration;
  }

  /** The holder can always poll again, and once its lease is lost so can any other session. */
  lemma MayPoll(s: State, now: nat, p: Poll)
    requires s.boot != 0 && p.session != 0 && p.generation != 0 && p.connected <= 1 && p.caps <= 7
    ensures p.session == s.session && p.generation >= s.generation ==> PollValid(s, now, p)
    ensures p.session != s.session && (s.session == 0 || LeaseLost(s, now)) ==> PollValid(s, now, p)
  {
  }

  // ---- an application that behaves -----------------------------------------------------------

  /** The acknowledgement it sends: it names what it was told. */
  function AckOf(r: Reply, p: Poll, lightRc: int, phase: nat, resetRc: int): Ack {
    Ack(p.session, r.generation, r.boot, r.revision, lightRc, r.eventId, phase, Codes(0, 0, 0), resetRc)
  }

  /** A scheduled event is handed to the first accepted poll with rumble in time, whole and with the time it has left; the
      receiver's acknowledgements start and complete it. */
  lemma Performed(s: State, clock: nat, t0: nat, m: Motors, t1: nat, p: Poll, t2: nat, t3: nat, lightRc: int, resetRc: int)
    requires Ok(s, clock) && clock <= t0 <= t1 <= t2 <= t3 < t1 + LEASE && t1 < t0 + TTL && s.boot != 0
    requires Scheduled(s, t0, m).1
    requires var a := Next(s, t0, DoSchedule(m)); PollValid(a, t1, p) && Rumbles(p)
    ensures var a := Next(s, t0, DoSchedule(m));
      var r, b := ReplyTo(a, t1, p), Next(a, t1, DoPoll(p));
      var c := Next(b, t2, DoAck(AckOf(r, p, lightRc, 1, resetRc)));
      var d := Next(c, t3, DoAck(AckOf(r, p, lightRc, 2, resetRc)));
      && r.event.Pending? && r.eventId == a.eventId != s.eventId && r.motors == m && r.ttl == TTL - (t1 - t0) && !r.stop
      && r.light == s.light && r.revision == s.revision && r.lease == LEASE
      && b.event.Pending? && b.delivered && c.event.Started? && c.started == t2 && d.event.Complete?
      && d.eventId == a.eventId && d.lightAck == s.revision && d.lightRc == lightRc && d.resetRc == resetRc
  {
    hide Duration, LightValid, MotorsValid;
    var a := Next(s, t0, DoSchedule(m));
    Handed(s, clock, t0, m, t1, p);
    var r, b := ReplyTo(a, t1, p), Next(a, t1, DoPoll(p));
    hide PollValid, Rumbles, Scheduled, Polled, ReplyTo, Aged, Ok;
    var c := Next(b, t2, DoAck(AckOf(r, p, lightRc, 1, resetRc)));
    assert c.event.Started? && c.started == t2;
  }

  lemma Handed(s: State, clock: nat, t0: nat, m: Motors, t1: nat, p: Poll)
    requires Ok(s, clock) && clock <= t0 <= t1 < t0 + TTL && s.boot != 0 && Scheduled(s, t0, m).1
    requires PollValid(Next(s, t0, DoSchedule(m)), t1, p) && Rumbles(p)
    ensures var a := Next(s, t0, DoSchedule(m));
      var r, b := ReplyTo(a, t1, p), Next(a, t1, DoPoll(p));
      && r.event.Pending? && r.eventId == a.eventId != s.eventId && r.motors == m && r.ttl == TTL - (t1 - t0) && !r.stop
      && r.light == s.light && r.revision == s.revision && r.lease == LEASE && r.boot == s.boot && r.generation == p.generation
      && b.event.Pending? && b.delivered && b.session == p.session != 0 && b.generation == p.generation && b.boot == s.boot
      && b.revision == s.revision && b.lastPoll == t1 && b.eventId == a.eventId
  {
    hide Duration, LightValid, MotorsValid;
  }

  /** New settings reach the next accepted poll, under a revision of their own. */
  lemma SettingsReach(s: State, now: nat, l: Light, p: Poll)
    requires Configured(s, l).Some? && PollValid(Configured(s, l).value, now, p)
    ensures var t := Next(s, now, DoConfigure(l)); var r := ReplyTo(t, now, p);
      t.lightAck == 0 && r.light == l && r.revision == s.revision + 1
  {
    hide Duration;
  }

  /** What an application that cannot rumble, or has no pad, is told about an event: only its state, and to be still if
      it is over. */
  lemma ToldNothing(s: State, now: nat, p: Poll)
    requires PollValid(s, now, p) && !Rumbles(p)
    ensures var r, t := ReplyTo(s, now, p), Next(s, now, DoPoll(p));
      r.eventId == 0 && r.ttl == 0 && r.motors == Motors(0, 0, 0, 0, 0) && (r.stop <==> !Live(t)) && r.event == t.event
  {
    hide Duration;
  }
}
