/** That the control server serves: what an undisturbed connection, a deferred reply and a stop come to. The safety of every
    interleaving is in `Ipc`. */
module Requests {
  import opened Ipc
  import opened Sets
  import opened Wrappers

  /** Actions taken one after the other, each while it is enabled. */
  ghost predicate Leads(w: World, acts: seq<Action>, v: World)
    decreases |acts|
  {
    if acts == [] then v == w else Enabled(w, acts[0]) && Leads(Apply(w, acts[0]), acts[1..], v)
  }

  lemma Here(w: World)
    ensures Leads(w, [], w)
  {
  }

  lemma {:induction false} Then(w: World, acts: seq<Action>, v: World, a: Action) returns (u: World)
    requires Leads(w, acts, v) && Enabled(v, a)
    ensures u == Apply(v, a) && Leads(w, acts + [a], u)
    decreases |acts|
  {
    hide Enabled, Apply;
    u := Apply(v, a);
    if acts == [] {
      assert ([] + [a])[1..] == [];
    } else {
      assert (acts + [a])[1..] == acts[1..] + [a];
      u := Then(Apply(w, acts[0]), acts[1..], v, a);
    }
  }

  /** A step of accept loop or worker that uses no descriptor it does not have and finds the server alive. */
  predicate Ready(w: World, fd: nat) {
    && w.accept.Polling? && fd !in w.open && !w.stop && !w.freed && w.handlers < SLOTS && w.nextSerial !in w.closed
    && FreeSlot(w.slots) < |w.slots| && w.nextJob !in w.jobs
  }

  /** A connection that nothing disturbs is accepted into a free slot, its request handed to a worker. */
  lemma Admitted(w: World, fd: nat) returns (acts: seq<Action>, v: World)
    requires Ready(w, fd)
    ensures Leads(w, acts, v)
    ensures var c, s, j := Conn(fd, w.nextSerial), FreeSlot(w.slots), w.nextJob;
      v == w.(open := w.open[fd := c.serial], nextSerial := c.serial + 1, slots := w.slots[s := Some(Entry(c, j))],
              jobs := w.jobs[j := Job(Some(c), s, Spawned)], nextJob := j + 1, handlers := w.handlers + 1)
  {
    hide FreeSlot, Leads;
    Here(w);
    acts := [];
    v := Then(w, acts, w, AcceptConn(fd));
    acts := acts + [AcceptConn(fd)];
    v := Then(w, acts, v, Admit);
    acts := acts + [Admit];
    v := Then(w, acts, v, Register);
    acts := acts + [Register];
    v := Then(w, acts, v, Spawn(true));
    acts := acts + [Spawn(true)];
    var j := w.nextJob;
    assert w.jobs[j := Job(Some(Conn(fd, w.nextSerial)), FreeSlot(w.slots), Starting)][j := v.jobs[j]] == w.jobs[j := v.jobs[j]];
  }

  /** A worker's job in a phase, with its connection and slot. */
  predicate Holds(w: World, j: nat, c: Conn, phase: Phase) {
    && At(w, j, phase) && w.jobs[j].conn == Some(c) && IsOpen(w, c) && c.serial !in w.closed && !w.stop && !w.freed
    && w.slots[w.jobs[j].slot] == Some(Entry(c, j))
  }

  function InPhase(w: World, j: nat, phase: Phase): World
    requires j in w.jobs
  {
    w.(jobs := w.jobs[j := w.jobs[j].(phase := phase)])
  }

  lemma PhaseTwice(w: World, j: nat, p: Phase, q: Phase)
    requires j in w.jobs
    ensures InPhase(InPhase(w, j, p), j, q) == InPhase(w, j, q)
  {
    assert w.jobs[j := w.jobs[j].(phase := p)][j := w.jobs[j].(phase := q)] == w.jobs[j := w.jobs[j].(phase := q)];
  }

  lemma Begins(w: World, j: nat, c: Conn)
    requires Holds(w, j, c, Spawned)
    ensures Enabled(w, Begin(j)) && Apply(w, Begin(j)) == InPhase(w, j, Handling) && Holds(InPhase(w, j, Handling), j, c, Handling)
  {
    hide AcceptStep, RegisterStep, ClearStep, UncountStep, DeferStep, ReleaseStep, FinishStep, Close;
  }

  lemma Calls(w: World, j: nat, c: Conn)
    requires Holds(w, j, c, Handling)
    ensures Enabled(w, Handle(j, true)) && Apply(w, Handle(j, true)) == InPhase(w, j, Calling)
    ensures Holds(InPhase(w, j, Calling), j, c, Calling)
  {
    hide AcceptStep, RegisterStep, ClearStep, UncountStep, DeferStep, ReleaseStep, FinishStep, Close;
  }

  lemma Returns(w: World, j: nat, c: Conn)
    requires Holds(w, j, c, Calling)
    ensures Enabled(w, Return(j)) && Apply(w, Return(j)) == InPhase(w, j, Releasing) && Holds(InPhase(w, j, Releasing), j, c, Releasing)
  {
    hide AcceptStep, RegisterStep, ClearStep, UncountStep, DeferStep, ReleaseStep, FinishStep, Close;
  }

  /** Closed, and the slot given back. */
  lemma Releases(w: World, j: nat, c: Conn)
    requires Holds(w, j, c, Releasing)
    ensures Enabled(w, Release(j))
    ensures Apply(w, Release(j)) == w.(open := w.open - {c.fd}, closed := w.closed + {c.serial}, slots := w.slots[w.jobs[j].slot := None],
                                       jobs := w.jobs[j := w.jobs[j].(conn := None, phase := Released)])
  {
    hide AcceptStep, RegisterStep, ClearStep, UncountStep, DeferStep, FinishStep;
  }

  /** Handed over to a deferred reply. */
  lemma Defers(w: World, j: nat, c: Conn)
    requires Holds(w, j, c, Calling)
    ensures Enabled(w, Defer(j))
    ensures Apply(w, Defer(j)) == w.(slots := w.slots[w.jobs[j].slot := None], jobs := w.jobs[j := w.jobs[j].(conn := None)],
                                     replies := w.replies[w.nextReply := c], nextReply := w.nextReply + 1)
  {
    hide AcceptStep, RegisterStep, ClearStep, UncountStep, ReleaseStep, FinishStep, Close;
  }

  /** A worker without a connection has nothing to reply to and nothing to close. */
  lemma LeavesEmpty(w: World, j: nat)
    requires At(w, j, Calling) && w.jobs[j].conn.None? && !w.freed
    ensures Enabled(w, Return(j)) && Apply(w, Return(j)) == InPhase(w, j, Releasing)
    ensures Enabled(InPhase(w, j, Releasing), Release(j))
    ensures Apply(InPhase(w, j, Releasing), Release(j)) == InPhase(w, j, Released)
  {
    hide AcceptStep, RegisterStep, ClearStep, UncountStep, DeferStep, FinishStep, Close;
    PhaseTwice(w, j, Releasing, Released);
  }

  lemma Finishes(w: World, j: nat)
    requires At(w, j, Released) && !w.freed
    ensures Enabled(w, Finish(j)) && Apply(w, Finish(j)) == w.(handlers := w.handlers - 1, jobs := w.jobs - {j})
  {
    hide AcceptStep, RegisterStep, ClearStep, UncountStep, DeferStep, ReleaseStep, Close;
  }

  /** The worker reads the request, replies, closes the connection, and leaves its slot free. */
  lemma Replied(w: World, j: nat, c: Conn) returns (acts: seq<Action>, v: World)
    requires Holds(w, j, c, Spawned)
    ensures Leads(w, acts, v)
    ensures v == w.(open := w.open - {c.fd}, closed := w.closed + {c.serial}, slots := w.slots[w.jobs[j].slot := None],
                    jobs := w.jobs - {j}, handlers := w.handlers - 1)
  {
    hide Leads, Enabled, Apply, IsOpen;
    acts, v := Called(w, j, c);
    Returns(v, j, c);
    PhaseTwice(w, j, Calling, Releasing);
    v := Then(w, acts, v, Return(j));
    acts := acts + [Return(j)];
    Releases(v, j, c);
    v := Then(w, acts, v, Release(j));
    acts := acts + [Release(j)];
    Finishes(v, j);
    v := Then(w, acts, v, Finish(j));
    acts := acts + [Finish(j)];
    assert v.jobs == w.jobs - {j};
  }

  lemma Called(w: World, j: nat, c: Conn) returns (acts: seq<Action>, v: World)
    requires Holds(w, j, c, Spawned)
    ensures Leads(w, acts, v) && v == InPhase(w, j, Calling) && Holds(v, j, c, Calling)
  {
    hide Leads, Enabled, Apply, Holds;
    Here(w);
    HoldsJob(w, j, c, Spawned);
    Begins(w, j, c);
    v := Then(w, [], w, Begin(j));
    acts := [] + [Begin(j)];
    Calls(v, j, c);
    PhaseTwice(w, j, Handling, Calling);
    v := Then(w, acts, v, Handle(j, true));
    acts := acts + [Handle(j, true)];
  }

  lemma HoldsJob(w: World, j: nat, c: Conn, phase: Phase)
    requires Holds(w, j, c, phase)
    ensures j in w.jobs
  {
  }

  /** A handler may hand its connection over instead: the reply has it, open, when the worker is gone, and closes it. */
  lemma Deferred(w: World, j: nat, c: Conn) returns (acts: seq<Action>, v: World)
    requires Holds(w, j, c, Spawned) && w.nextReply !in w.replies
    ensures Leads(w, acts, v)
    ensures v == w.(slots := w.slots[w.jobs[j].slot := None], jobs := w.jobs - {j}, handlers := w.handlers - 1,
                    replies := w.replies[w.nextReply := c], nextReply := w.nextReply + 1)
    ensures IsOpen(v, c) && Enabled(v, EndReply(w.nextReply))
  {
    hide Leads, Apply;
    acts, v := Called(w, j, c);
    Defers(v, j, c);
    v := Then(w, acts, v, Defer(j));
    acts := acts + [Defer(j)];
    LeavesEmpty(v, j);
    var u := v;
    v := Then(w, acts, v, Return(j));
    acts := acts + [Return(j)];
    v := Then(w, acts, v, Release(j));
    acts := acts + [Release(j)];
    Finishes(v, j);
    v := Then(w, acts, v, Finish(j));
    acts := acts + [Finish(j)];
    assert v.jobs == w.jobs - {j};
  }

  lemma ReplyCloses(w: World, r: nat)
    requires r in w.replies && IsOpen(w, w.replies[r]) && w.replies[r].serial !in w.closed
    ensures var c := w.replies[r];
      Apply(w, EndReply(r)) == w.(open := w.open - {c.fd}, closed := w.closed + {c.serial}, replies := w.replies - {r})
  {
    hide AcceptStep, RegisterStep, ClearStep, UncountStep, DeferStep, ReleaseStep, FinishStep;
  }

  /** Main result: in any state a run can reach in which the server listens and counts fewer than four requests, a new
      connection is served and closed, and everything else is as before. */
  lemma Served(w: World, fd: nat) returns (first: seq<Action>, second: seq<Action>, u: World, v: World)
    requires Ok(w) && w.accept.Polling? && !w.stop && w.handlers < SLOTS && fd !in w.open
    ensures Leads(w, first, u) && Leads(u, second, v)
    ensures w.nextJob in u.jobs && u.jobs[w.nextJob].conn == Some(Conn(fd, w.nextSerial)) && u.jobs[w.nextJob].phase.Spawned?
    ensures v == w.(nextSerial := w.nextSerial + 1, nextJob := w.nextJob + 1, closed := w.closed + {w.nextSerial})
  {
    hide Leads, FreeSlot, Ok;
    OkReady(w, fd);
    first, u := Admitted(w, fd);
    var j, c := w.nextJob, Conn(fd, w.nextSerial);
    second, v := Replied(u, j, c);
    FreeSlotFree(w.slots);
    assert v.slots == w.slots;
    assert v.open == w.open;
    assert v.jobs == w.jobs;
  }

  lemma FreeSlotFree(slots: seq<Option<Entry>>)
    ensures FreeSlot(slots) < |slots| ==> slots[FreeSlot(slots)].None?
  {
  }

  lemma OkReady(w: World, fd: nat)
    requires Ok(w) && w.accept.Polling? && !w.stop && w.handlers < SLOTS && fd !in w.open
    ensures Ready(w, fd)
  {
    hide FreeSlot;
    RoomForHandler(w);
    FourSlots(w);
    NumbersFree(w);
  }

  /** The stop's own steps, when nobody else moves. */
  lemma StopBegins(w: World)
    requires w.stopper.Idle? && !w.freed
    ensures Enabled(w, BeginStop) && Apply(w, BeginStop) == w.(stop := true, stopper := Flagged)
  {
    hide AcceptStep, RegisterStep, ClearStep, UncountStep, DeferStep, ReleaseStep, FinishStep, Close;
  }

  lemma AcceptEnds(w: World)
    requires w.accept.Polling? && w.stop && !w.freed
    ensures Enabled(w, AcceptExit) && Apply(w, AcceptExit) == w.(accept := Exited)
  {
    hide AcceptStep, RegisterStep, ClearStep, UncountStep, DeferStep, ReleaseStep, FinishStep, Close;
  }

  lemma Sweeps(w: World)
    requires w.stopper.Flagged? && !w.freed && forall s :: 0 <= s < |w.slots| && w.slots[s].Some? ==> IsOpen(w, w.slots[s].value.conn)
    ensures Enabled(w, Sweep) && Apply(w, Sweep) == w.(stopper := Swept)
  {
    hide AcceptStep, RegisterStep, ClearStep, UncountStep, DeferStep, ReleaseStep, FinishStep, Close;
  }

  lemma Joins(w: World)
    requires w.stopper.Swept? && w.accept.Exited? && !w.freed
    ensures Enabled(w, Join(true)) && Apply(w, Join(true)) == w.(stopper := Joined, joined := true)
  {
    hide AcceptStep, RegisterStep, ClearStep, UncountStep, DeferStep, ReleaseStep, FinishStep, Close;
  }

  lemma Waits(w: World)
    requires w.stopper.Joined? && !w.freed
    ensures Enabled(w, Wait) && Apply(w, Wait) == w.(stopper := if w.handlers == 0 then Drained else Idle)
  {
    hide AcceptStep, RegisterStep, ClearStep, UncountStep, DeferStep, ReleaseStep, FinishStep, Close;
  }

  lemma Frees(w: World)
    requires w.stopper.Drained? && !w.freed
    ensures Enabled(w, Unlisten) && Apply(w, Unlisten) == w.(stopper := Unlistened)
    ensures Enabled(w.(stopper := Unlistened), Free)
    ensures Apply(w.(stopper := Unlistened), Free) == w.(stopper := Gone, freed := true)
  {
    hide AcceptStep, RegisterStep, ClearStep, UncountStep, DeferStep, ReleaseStep, FinishStep, Close;
  }

  /** A stop that finds no request under way frees the server; one that finds some gives up and may be tried again. */
  lemma Stopped(w: World) returns (acts: seq<Action>, v: World)
    requires Ok(w) && w.stopper.Idle? && w.accept.Polling? && !w.freed
    ensures Leads(w, acts, v)
    ensures v == if w.handlers == 0 then w.(stop := true, accept := Exited, stopper := Gone, joined := true, freed := true)
                 else w.(stop := true, accept := Exited, joined := true)
  {
    hide Leads, Enabled, Apply, IsOpen, Owned, Slotted, Counted;
    SlotsOpen(w);
    FourSlots(w);
    Here(w);
    StopBegins(w);
    v := Then(w, [], w, BeginStop);
    acts := [] + [BeginStop];
    AcceptEnds(v);
    v := Then(w, acts, v, AcceptExit);
    acts := acts + [AcceptExit];
    SameOpen(w, v);
    Sweeps(v);
    v := Then(w, acts, v, Sweep);
    acts := acts + [Sweep];
    Joins(v);
    v := Then(w, acts, v, Join(true));
    acts := acts + [Join(true)];
    Waits(v);
    v := Then(w, acts, v, Wait);
    acts := acts + [Wait];
    if w.handlers == 0 {
      Frees(v);
      v := Then(w, acts, v, Unlisten);
      acts := acts + [Unlisten];
      v := Then(w, acts, v, Free);
      acts := acts + [Free];
    }
  }

  lemma SameOpen(w: World, v: World)
    requires v.open == w.open
    ensures forall c :: IsOpen(v, c) == IsOpen(w, c)
  {
  }
}
