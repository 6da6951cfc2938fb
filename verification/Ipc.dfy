/** Who owns a client connection of the local control server, from accept to close.

    One accept thread, any number of workers, replies deferred past their worker, and a stop that may be tried again.
    Each critical section is one step, as is every other load, store and call; steps interleave freely. Descriptor
    numbers are reused as soon as they are closed, so a connection also has a serial number that the program does
    not see. `bad` records any use of a descriptor (to read a request, write a reply, shut down or close)
    or of the server that its user no longer had. */
module Ipc {
  import opened Sets
  import opened Wrappers

  const SLOTS: nat := 4

  datatype Conn = Conn(fd: nat, serial: nat)

  /** Slot contents; the owner is history. */
  datatype Entry = Entry(conn: Conn, owner: nat)

  datatype Phase = Starting | Unslotted | Spawned | Handling | Calling | Releasing | Released {
    /** Until its handler is called, a job has its connection. */
    predicate Holding() { Starting? || Unslotted? || Spawned? || Handling? }
  }

  datatype Job = Job(conn: Option<Conn>, slot: nat, phase: Phase)

  datatype Accept =
    | Polling | Exited
    | Accepted(conn: Conn) | Admitted(conn: Conn) | Refusing(conn: Conn)
    | Creating(job: nat) | Failing(job: nat) | Uncounting(job: nat)

  datatype Stopper = Idle | Flagged | Swept | Joined | Drained | Unlistened | Gone

  /** `open` is the kernel's table; `closed` the serials closed so far. */
  datatype World = World(open: map<nat, nat>, nextSerial: nat, closed: set<nat>, slots: seq<Option<Entry>>, handlers: int,
                         stop: bool, accept: Accept, jobs: map<nat, Job>, nextJob: nat, replies: map<nat, Conn>,
                         nextReply: nat, stopper: Stopper, joined: bool, freed: bool, bad: bool)

  datatype Action =
    | AcceptConn(fd: nat) | AcceptExit | Refuse | Admit | Register | Spawn(ok: bool) | ClearSlot | Uncount | CloseRefused
    | Begin(job: nat) | Handle(job: nat, calls: bool) | Defer(job: nat) | Return(job: nat) | Release(job: nat) | Finish(job: nat)
    | EndReply(reply: nat)
    | BeginStop | Sweep | Join(ok: bool) | Wait | Unlisten | Free

  // ---- what a step does ----------------------------------------------------------------------

  predicate IsOpen(w: World, c: Conn) { c.fd in w.open && w.open[c.fd] == c.serial }

  /** Closing the number one holds: wrong if it is not, or no longer, that connection's. */
  function Close(w: World, c: Conn): World {
    w.(open := w.open - {c.fd}, closed := w.closed + {c.serial}, bad := w.bad || !IsOpen(w, c) || c.serial in w.closed)
  }

  /** Reading from or writing to a connection one must still have. */
  function Use(w: World, c: Option<Conn>): World { w.(bad := w.bad || c.None? || !IsOpen(w, c.value)) }

  /** Any step that uses the server's memory. */
  function Touch(w: World): World { w.(bad := w.bad || w.freed) }

  function FreeSlot(slots: seq<Option<Entry>>): (s: nat)
    ensures s <= |slots| && (s < |slots| ==> slots[s].None?) && forall t :: 0 <= t < s ==> slots[t].Some?
  {
    if slots == [] || slots[0].None? then 0 else 1 + FreeSlot(slots[1..])
  }

  predicate At(w: World, j: nat, phase: Phase) { j in w.jobs && w.jobs[j].phase == phase && w.jobs[j].slot < |w.slots| }

  predicate Enabled(w: World, a: Action) {
    match a
    case AcceptConn(fd) => w.accept.Polling? && fd !in w.open
    case AcceptExit => w.accept.Polling? && w.stop
    case Refuse => w.accept.Accepted?
    case Admit => w.accept.Accepted? && w.handlers < SLOTS
    case Register => w.accept.Admitted?
    case Spawn(_) => w.accept.Creating? && w.accept.job in w.jobs
    case ClearSlot => w.accept.Failing? && w.accept.job in w.jobs && w.jobs[w.accept.job].slot < |w.slots|
    case Uncount => w.accept.Uncounting? && w.accept.job in w.jobs && w.jobs[w.accept.job].conn.Some?
    case CloseRefused => w.accept.Refusing?
    case Begin(j) => At(w, j, Spawned)
    case Handle(j, _) => At(w, j, Handling)
    case Defer(j) => At(w, j, Calling)
    case Return(j) => At(w, j, Calling)
    case Release(j) => At(w, j, Releasing)
    case Finish(j) => At(w, j, Released)
    case EndReply(r) => r in w.replies
    case BeginStop => w.stopper.Idle? && !w.freed
    case Sweep => w.stopper.Flagged?
    case Join(ok) => w.stopper.Swept? && (ok ==> w.joined || w.accept.Exited?)
    case Wait => w.stopper.Joined?
    case Unlisten => w.stopper.Drained?
    case Free => w.stopper.Unlistened?
  }

  function Put(w: World, j: nat, job: Job): World { w.(jobs := w.jobs[j := job]) }

  // The accept thread.

  function AcceptStep(w: World, fd: nat): World {
    var c := Conn(fd, w.nextSerial);
    Touch(w).(open := w.open[fd := c.serial], nextSerial := w.nextSerial + 1, accept := Accepted(c))
  }

  /** The critical section that finds a slot, unless the server is stopping by then. */
  function RegisterStep(w: World): World
    requires w.accept.Admitted?
  {
    var c, s, j := w.accept.conn, FreeSlot(w.slots), w.nextJob;
    if s == |w.slots| || w.stop then Touch(w).(accept := Refusing(c))
    else Touch(w).(slots := w.slots[s := Some(Entry(c, j))], jobs := w.jobs[j := Job(Some(c), s, Starting)],
                   nextJob := j + 1, handlers := w.handlers + 1, accept := Creating(j))
  }

  function ClearStep(w: World, j: nat): World
    requires j in w.jobs && w.jobs[j].slot < |w.slots|
  {
    Put(Touch(w), j, w.jobs[j].(phase := Unslotted)).(slots := w.slots[w.jobs[j].slot := None], accept := Uncounting(j))
  }

  function UncountStep(w: World, j: nat): World
    requires j in w.jobs && w.jobs[j].conn.Some?
  {
    Touch(w).(handlers := w.handlers - 1, jobs := w.jobs - {j}, accept := Refusing(w.jobs[j].conn.value))
  }

  // Workers.

  predicate MayDefer(w: World, j: nat)
    requires At(w, j, Calling)
  {
    var job := w.jobs[j];
    job.conn.Some? && !w.stop && w.slots[job.slot].Some? && w.slots[job.slot].value.conn.fd == job.conn.value.fd
  }

  /** Handing the connection over to a deferred reply, under the lock; refused when the slot is no longer its own. */
  function DeferStep(w: World, j: nat): World
    requires At(w, j, Calling)
  {
    var job := w.jobs[j];
    if !MayDefer(w, j) then Touch(w)
    else Put(Touch(w), j, job.(conn := None)).(slots := w.slots[job.slot := None],
                                               replies := w.replies[w.nextReply := job.conn.value], nextReply := w.nextReply + 1)
  }

  /** The worker's last critical section: it closes what it still owns. */
  function ReleaseStep(w: World, j: nat): World
    requires At(w, j, Releasing)
  {
    var job := w.jobs[j];
    var next := Put(Touch(w), j, job.(conn := None, phase := Released));
    if job.conn.None? then next else Close(next, job.conn.value).(slots := w.slots[job.slot := None])
  }

  function FinishStep(w: World, j: nat): World { Touch(w).(handlers := w.handlers - 1, jobs := w.jobs - {j}) }

  function Apply(w: World, a: Action): World
    requires Enabled(w, a)
  {
    match a
    case AcceptConn(fd) => AcceptStep(w, fd)
    case AcceptExit => Touch(w).(accept := Exited)
    case Refuse => Touch(w).(accept := Refusing(w.accept.conn))
    case Admit => Touch(w).(accept := Admitted(w.accept.conn))
    case Register => RegisterStep(w)
    case Spawn(ok) =>
      if ok then Put(Touch(w), w.accept.job, w.jobs[w.accept.job].(phase := Spawned)).(accept := Polling)
      else Touch(w).(accept := Failing(w.accept.job))
    case ClearSlot => ClearStep(w, w.accept.job)
    case Uncount => UncountStep(w, w.accept.job)
    case CloseRefused => Close(Touch(w), w.accept.conn).(accept := Polling)
    case Begin(j) => Put(Touch(w), j, w.jobs[j].(phase := if w.stop then Releasing else Handling))
    case Handle(j, calls) => Put(Use(Touch(w), w.jobs[j].conn), j, w.jobs[j].(phase := if calls then Calling else Releasing))
    case Defer(j) => DeferStep(w, j)
    case Return(j) =>
      var job := w.jobs[j];
      Put(if job.conn.Some? then Use(Touch(w), job.conn) else Touch(w), j, job.(phase := Releasing))
    case Release(j) => ReleaseStep(w, j)
    case Finish(j) => FinishStep(w, j)
    case EndReply(r) => Close(w, w.replies[r]).(replies := w.replies - {r})
    case BeginStop => Touch(w).(stop := true, stopper := Flagged)
    case Sweep =>
      Touch(w).(stopper := Swept,
                bad := w.bad || w.freed || exists s :: 0 <= s < |w.slots| && w.slots[s].Some? && !IsOpen(w, w.slots[s].value.conn))
    case Join(ok) => Touch(w).(stopper := if ok then Joined else Idle, joined := w.joined || ok)
    case Wait => Touch(w).(stopper := if w.handlers == 0 then Drained else Idle)
    case Unlisten => Touch(w).(stopper := Unlistened)
    case Free => Touch(w).(stopper := Gone, freed := true)
  }

  ghost predicate Initial(w: World) {
    && w.open == map[] && w.nextSerial == 0 && w.closed == {} && w.slots == [None, None, None, None] && w.handlers == 0 && !w.stop
    && w.accept.Polling? && w.jobs == map[] && w.replies == map[] && w.stopper.Idle? && !w.joined && !w.freed && !w.bad
  }

  // ---- the invariant -------------------------------------------------------------------------

  datatype Holder = ByAccept | ByJob(id: nat) | ByReply(id: nat)

  function HeldBy(w: World, h: Holder): Option<Conn> {
    match h
    case ByAccept => if w.accept.Accepted? || w.accept.Admitted? || w.accept.Refusing? then Some(w.accept.conn) else None
    case ByJob(j) => if j in w.jobs then w.jobs[j].conn else None
    case ByReply(r) => if r in w.replies then Some(w.replies[r]) else None
  }

  /** Every open connection has exactly one owner, owners own open connections, and what was accepted is open or was
      closed. */
  ghost predicate Owned(w: World) {
    && (forall h :: HeldBy(w, h).Some? ==> IsOpen(w, HeldBy(w, h).value))
    && (forall g, h :: g != h && HeldBy(w, g).Some? && HeldBy(w, h).Some? ==> HeldBy(w, g).value.fd != HeldBy(w, h).value.fd)
    && (forall fd :: fd in w.open ==> exists h :: HeldBy(w, h) == Some(Conn(fd, w.open[fd])))
    && TableOk(w.open, w.closed, w.nextSerial)
  }

  /** No connection is open twice or after it was closed, and none accepted is lost. */
  ghost predicate TableOk(open: map<nat, nat>, closed: set<nat>, next: nat) {
    && (forall fd :: fd in open ==> open[fd] < next && open[fd] !in closed)
    && (forall fd, gd :: fd in open && gd in open && fd != gd ==> open[fd] != open[gd])
    && (forall s :: s in closed ==> s < next)
    && forall s :: 0 <= s < next && s !in closed ==> Listed(open, s)
  }

  lemma TableAdd(open: map<nat, nat>, closed: set<nat>, next: nat, fd: nat)
    requires TableOk(open, closed, next) && fd !in open
    ensures TableOk(open[fd := next], closed, next + 1)
  {
    var more := open[fd := next];
    forall s | 0 <= s < next + 1 && s !in closed ensures Listed(more, s) {
      if s == next {
        assert more[fd] == s;
      } else {
        var gd :| gd in open && open[gd] == s;
        assert more[gd] == s;
      }
    }
  }

  lemma TableClose(open: map<nat, nat>, closed: set<nat>, next: nat, c: Conn)
    requires TableOk(open, closed, next) && c.fd in open && open[c.fd] == c.serial
    ensures TableOk(open - {c.fd}, closed + {c.serial}, next) && c.serial !in closed
  {
    var left := open - {c.fd};
    forall s | 0 <= s < next && s !in closed + {c.serial} ensures Listed(left, s) {
      var gd :| gd in open && open[gd] == s;
      assert gd in left && left[gd] == s;
    }
  }

  ghost predicate Listed(open: map<nat, nat>, serial: nat) { exists fd :: fd in open && open[fd] == serial }

  /** A slot holds a connection exactly while its job does and was not given up by the accept thread. */
  ghost predicate SlotsOk(slots: seq<Option<Entry>>, jobs: map<nat, Job>, nextJob: nat) {
    && |slots| == SLOTS
    && (forall s :: 0 <= s < SLOTS && slots[s].Some? ==>
          var e := slots[s].value;
          e.owner in jobs && jobs[e.owner].slot == s && jobs[e.owner].conn == Some(e.conn))
    && (forall j :: j in jobs ==> j < nextJob && jobs[j].slot < SLOTS)
    && (forall j :: j in jobs && jobs[j].conn.Some? && !jobs[j].phase.Unslotted? ==>
          slots[jobs[j].slot] == Some(Entry(jobs[j].conn.value, j)))
    && (forall j :: j in jobs && jobs[j].phase.Unslotted? ==>
          slots[jobs[j].slot].None? || slots[jobs[j].slot].value.owner != j)
    && (forall j :: j in jobs && jobs[j].phase.Released? ==> jobs[j].conn.None?)
    && forall j :: j in jobs && jobs[j].phase.Holding() ==> jobs[j].conn.Some?
  }

  ghost predicate Slotted(w: World) {
    SlotsOk(w.slots, w.jobs, w.nextJob) && forall r :: r in w.replies ==> r < w.nextReply
  }

  /** A job gives up connection and slot together. */
  lemma GivesUp(slots: seq<Option<Entry>>, jobs: map<nat, Job>, nextJob: nat, j: nat, phase: Phase)
    requires SlotsOk(slots, jobs, nextJob) && j in jobs && jobs[j].conn.Some? && !jobs[j].phase.Unslotted?
    requires phase.Calling? || phase.Released?
    ensures SlotsOk(slots[jobs[j].slot := None], jobs[j := jobs[j].(conn := None, phase := phase)], nextJob)
  {
  }

  predicate Current(a: Accept, j: nat) { (a.Creating? || a.Failing? || a.Uncounting?) && a.job == j }

  /** The accept thread's own job, and the counts and flags of starting and stopping. */
  ghost predicate Counted(w: World) {
    && w.handlers == |w.jobs| && (w.accept.Admitted? ==> w.handlers < SLOTS)
    && (forall j :: j in w.jobs && (w.jobs[j].phase.Starting? || w.jobs[j].phase.Unslotted?) ==> Current(w.accept, j))
    && (w.accept.Creating? || w.accept.Failing? ==>
          w.accept.job in w.jobs && w.jobs[w.accept.job].phase.Starting? && w.jobs[w.accept.job].conn.Some?)
    && (w.accept.Uncounting? ==>
          w.accept.job in w.jobs && w.jobs[w.accept.job].phase.Unslotted? && w.jobs[w.accept.job].conn.Some?)
    && (w.joined ==> w.accept.Exited?)
    && (w.stopper.Joined? || w.stopper.Drained? || w.stopper.Unlistened? || w.stopper.Gone? ==> w.joined)
    && (w.stopper.Drained? || w.stopper.Unlistened? || w.stopper.Gone? ==> w.jobs == map[])
    && (w.freed ==> w.stopper.Gone?)
  }

  ghost predicate Ok(w: World) { Owned(w) && Slotted(w) && Counted(w) && !w.bad }

  lemma InitialOk(w: World)
    requires Initial(w)
    ensures Ok(w)
  {
  }

  /** Removing a key makes a map one smaller. */
  lemma DropCount<V>(m: map<nat, V>, k: nat)
    requires k in m
    ensures |m - {k}| == |m| - 1
  {
    assert m.Keys == (m - {k}).Keys + {k};
    KeyCount(m);
    KeyCount(m - {k});
  }

  lemma KeyCount<V>(m: map<nat, V>)
    ensures |m| == |m.Keys|
  {
  }

  lemma AddCount<V>(m: map<nat, V>, k: nat, v: V)
    requires k !in m
    ensures |m[k := v]| == |m| + 1
  {
    assert m[k := v].Keys == m.Keys + {k};
    KeyCount(m);
    KeyCount(m[k := v]);
  }

  lemma SameCount<V>(m: map<nat, V>, k: nat, v: V)
    requires k in m
    ensures |m[k := v]| == |m|
  {
    assert m[k := v].Keys == m.Keys;
    KeyCount(m);
    KeyCount(m[k := v]);
  }

  /** While fewer than four requests are counted, a slot is free. */
  lemma RoomForHandler(w: World)
    requires Slotted(w) && Counted(w) && w.handlers < SLOTS
    ensures FreeSlot(w.slots) < SLOTS
  {
    hide FreeSlot, SlotsOk;
    FourSlots(w);
    if FreeSlot(w.slots) == SLOTS {
      OwnersDiffer(w.slots, w.jobs, w.nextJob);
      var four := {w.slots[0].value.owner, w.slots[1].value.owner, w.slots[2].value.owner, w.slots[3].value.owner};
      KeyCount(w.jobs);
      SubsetSize(four, w.jobs.Keys);
    }
  }

  lemma OwnersDiffer(slots: seq<Option<Entry>>, jobs: map<nat, Job>, nextJob: nat)
    requires SlotsOk(slots, jobs, nextJob) && forall s :: 0 <= s < SLOTS ==> slots[s].Some?
    ensures forall s, t :: 0 <= s < t < SLOTS ==> slots[s].value.owner != slots[t].value.owner
    ensures forall s :: 0 <= s < SLOTS ==> slots[s].value.owner in jobs
  {
  }

  // ---- ownership under a step ----------------------------------------------------------------

  predicate SameTable(w: World, v: World) { v.open == w.open && v.closed == w.closed && v.nextSerial == w.nextSerial }

  lemma OwnedSame(w: World, v: World)
    requires Owned(w) && SameTable(w, v) && forall h :: HeldBy(v, h) == HeldBy(w, h)
    ensures Owned(v)
  {
    hide HeldBy;
    forall fd | fd in v.open ensures exists h :: HeldBy(v, h) == Some(Conn(fd, v.open[fd])) {
      var h :| HeldBy(w, h) == Some(Conn(fd, w.open[fd]));
      assert HeldBy(v, h) == HeldBy(w, h);
    }
  }

  lemma OwnedMove(w: World, v: World, from: Holder, to: Holder)
    requires Owned(w) && SameTable(w, v) && from != to && HeldBy(w, to).None? && HeldBy(v, from).None?
    requires HeldBy(v, to) == HeldBy(w, from) && forall h :: h != from && h != to ==> HeldBy(v, h) == HeldBy(w, h)
    ensures Owned(v)
  {
    hide HeldBy;
    forall fd | fd in v.open ensures exists h :: HeldBy(v, h) == Some(Conn(fd, v.open[fd])) {
      var h :| HeldBy(w, h) == Some(Conn(fd, w.open[fd]));
      var k := if h == from then to else h;
      assert HeldBy(v, k) == HeldBy(w, h);
    }
    forall g, h | g != h && HeldBy(v, g).Some? && HeldBy(v, h).Some?
      ensures HeldBy(v, g).value.fd != HeldBy(v, h).value.fd
    {
      var g0, h0 := if g == to then from else g, if h == to then from else h;
      assert HeldBy(w, g0) == HeldBy(v, g) && HeldBy(w, h0) == HeldBy(v, h);
    }
  }

  lemma OwnedAdd(w: World, v: World, fd: nat)
    requires Owned(w) && fd !in w.open && HeldBy(w, ByAccept).None?
    requires v.open == w.open[fd := w.nextSerial] && v.nextSerial == w.nextSerial + 1 && v.closed == w.closed
    requires HeldBy(v, ByAccept) == Some(Conn(fd, w.nextSerial)) && forall h :: h != ByAccept ==> HeldBy(v, h) == HeldBy(w, h)
    ensures Owned(v)
  {
    hide HeldBy, TableOk;
    TableAdd(w.open, w.closed, w.nextSerial, fd);
    forall gd | gd in v.open ensures exists h :: HeldBy(v, h) == Some(Conn(gd, v.open[gd])) {
      if gd == fd {
        assert HeldBy(v, ByAccept) == Some(Conn(gd, v.open[gd]));
      } else {
        var h :| HeldBy(w, h) == Some(Conn(gd, w.open[gd]));
        assert h != ByAccept && HeldBy(v, h) == HeldBy(w, h);
      }
    }
  }

  /** The owner closes: the right connection goes, and it goes once. */
  lemma OwnedClose(w: World, v: World, by_: Holder)
    requires Owned(w) && HeldBy(w, by_).Some? && HeldBy(v, by_).None?
    requires forall h :: h != by_ ==> HeldBy(v, h) == HeldBy(w, h)
    requires var c := HeldBy(w, by_).value;
      v.open == w.open - {c.fd} && v.closed == w.closed + {c.serial} && v.nextSerial == w.nextSerial
    ensures Owned(v) && IsOpen(w, HeldBy(w, by_).value) && HeldBy(w, by_).value.serial !in w.closed
  {
    hide HeldBy, TableOk;
    var c := HeldBy(w, by_).value;
    TableClose(w.open, w.closed, w.nextSerial, c);
    forall h | HeldBy(v, h).Some? ensures IsOpen(v, HeldBy(v, h).value) {
      assert h != by_ && HeldBy(v, h) == HeldBy(w, h);
    }
    forall fd | fd in v.open ensures exists h :: HeldBy(v, h) == Some(Conn(fd, v.open[fd])) {
      var h :| HeldBy(w, h) == Some(Conn(fd, w.open[fd]));
      assert h != by_;
      assert HeldBy(v, h) == HeldBy(w, h);
    }
  }

  // ---- each step keeps the invariant ---------------------------------------------------------

  /** A step that changes neither connections, slots nor jobs, only who waits for what. */
  lemma QuietKeeps(w: World, v: World)
    requires Owned(w) && Slotted(w) && SameTable(w, v)
    requires v.jobs == w.jobs && v.slots == w.slots && v.replies == w.replies && v.nextJob == w.nextJob && v.nextReply == w.nextReply
    requires HeldBy(v, ByAccept) == HeldBy(w, ByAccept)
    ensures Owned(v) && Slotted(v)
  {
    hide Owned;
    OwnedSame(w, v);
  }

  /** A step that changes only one job's phase. */
  lemma PhaseKeeps(w: World, v: World, j: nat, phase: Phase)
    requires Owned(w) && Slotted(w) && SameTable(w, v) && j in w.jobs
    requires !phase.Unslotted? && !phase.Released? && !w.jobs[j].phase.Unslotted?
    requires phase.Holding() ==> w.jobs[j].conn.Some?
    requires v.jobs == w.jobs[j := w.jobs[j].(phase := phase)]
    requires v.slots == w.slots && v.replies == w.replies && v.nextJob == w.nextJob && v.nextReply == w.nextReply
    requires HeldBy(v, ByAccept) == HeldBy(w, ByAccept)
    ensures Owned(v) && Slotted(v)
  {
    hide Owned, SlotsOk;
    NewPhase(w.slots, w.jobs, w.nextJob, j, phase);
    assert forall h :: HeldBy(v, h) == HeldBy(w, h);
    OwnedSame(w, v);
  }

  lemma NewPhase(slots: seq<Option<Entry>>, jobs: map<nat, Job>, nextJob: nat, j: nat, phase: Phase)
    requires SlotsOk(slots, jobs, nextJob) && j in jobs
    requires !phase.Unslotted? && !phase.Released? && !jobs[j].phase.Unslotted?
    requires phase.Holding() ==> jobs[j].conn.Some?
    ensures SlotsOk(slots, jobs[j := jobs[j].(phase := phase)], nextJob)
  {
  }

  lemma AcceptOwned(w: World, fd: nat)
    requires Owned(w) && w.accept.Polling? && fd !in w.open
    ensures Owned(AcceptStep(w, fd))
  {
    hide Owned;
    OwnedAdd(w, AcceptStep(w, fd), fd);
  }

  lemma AcceptKeeps(w: World, fd: nat)
    requires Ok(w) && w.accept.Polling? && fd !in w.open
    ensures Ok(AcceptStep(w, fd))
  {
    hide Owned, SlotsOk;
    AcceptOwned(w, fd);
  }

  /** Numbers not yet given out name nothing. */
  lemma NumbersFree(w: World)
    requires Slotted(w)
    ensures w.nextJob !in w.jobs && w.nextReply !in w.replies
  {
  }

  lemma RegisterOwned(w: World)
    requires Owned(w) && Slotted(w) && w.accept.Admitted?
    ensures Owned(RegisterStep(w))
  {
    hide Owned, Slotted, FreeSlot;
    NumbersFree(w);
    var v := RegisterStep(w);
    if FreeSlot(w.slots) == |w.slots| || w.stop {
      OwnedSame(w, v);
    } else {
      OwnedMove(w, v, ByAccept, ByJob(w.nextJob));
    }
  }

  lemma RegisterSlotted(w: World)
    requires Slotted(w) && Counted(w) && w.accept.Admitted?
    ensures Slotted(RegisterStep(w))
  {
    hide FreeSlot, SlotsOk;
    var s := FreeSlot(w.slots);
    FourSlots(w);
    if s < |w.slots| { TakesSlot(w.slots, w.jobs, w.nextJob, s, w.accept.conn); }
  }

  lemma TakesSlot(slots: seq<Option<Entry>>, jobs: map<nat, Job>, nextJob: nat, s: nat, c: Conn)
    requires SlotsOk(slots, jobs, nextJob) && s < SLOTS && slots[s].None?
    ensures SlotsOk(slots[s := Some(Entry(c, nextJob))], jobs[nextJob := Job(Some(c), s, Starting)], nextJob + 1)
  {
  }

  lemma RegisterCounted(w: World)
    requires Slotted(w) && Counted(w) && !w.bad && w.accept.Admitted?
    ensures Counted(RegisterStep(w)) && !RegisterStep(w).bad
  {
    hide FreeSlot, Slotted;
    NumbersFree(w);
    AddCount(w.jobs, w.nextJob, Job(Some(w.accept.conn), FreeSlot(w.slots), Starting));
  }

  lemma SpawnKeeps(w: World, ok: bool)
    requires Ok(w) && Enabled(w, Spawn(ok))
    ensures Ok(Apply(w, Spawn(ok)))
  {
    hide Owned, Slotted;
    var j, v := w.accept.job, Apply(w, Spawn(ok));
    if ok {
      JobHolds(w, j);
      PhaseKeeps(w, v, j, Spawned);
      SameCount(w.jobs, j, v.jobs[j]);
    } else {
      QuietKeeps(w, v);
    }
  }

  lemma ClearOwned(w: World)
    requires Owned(w) && Enabled(w, ClearSlot)
    ensures Owned(ClearStep(w, w.accept.job))
  {
    hide Owned;
    OwnedSame(w, ClearStep(w, w.accept.job));
  }

  lemma ClearSlotted(w: World)
    requires Slotted(w) && Counted(w) && Enabled(w, ClearSlot)
    ensures Slotted(ClearStep(w, w.accept.job))
  {
  }

  lemma ClearCounted(w: World)
    requires Slotted(w) && Counted(w) && !w.bad && Enabled(w, ClearSlot)
    ensures Counted(ClearStep(w, w.accept.job)) && !ClearStep(w, w.accept.job).bad
  {
    hide Slotted;
    SameCount(w.jobs, w.accept.job, ClearStep(w, w.accept.job).jobs[w.accept.job]);
  }

  lemma UncountOwned(w: World)
    requires Owned(w) && Enabled(w, Uncount)
    ensures Owned(UncountStep(w, w.accept.job))
  {
    hide Owned;
    OwnedMove(w, UncountStep(w, w.accept.job), ByJob(w.accept.job), ByAccept);
  }

  lemma UncountSlotted(w: World)
    requires Slotted(w) && Counted(w) && Enabled(w, Uncount)
    ensures Slotted(UncountStep(w, w.accept.job))
  {
  }

  lemma UncountCounted(w: World)
    requires Counted(w) && !w.bad && Enabled(w, Uncount)
    ensures Counted(UncountStep(w, w.accept.job)) && !UncountStep(w, w.accept.job).bad
  {
    DropCount(w.jobs, w.accept.job);
  }

  lemma RefuseOwned(w: World)
    requires Owned(w) && w.accept.Refusing?
    ensures Owned(Apply(w, CloseRefused)) && (Apply(w, CloseRefused).bad ==> w.bad || w.freed)
  {
    hide Owned, TableOk;
    OwnedClose(w, Apply(w, CloseRefused), ByAccept);
  }

  lemma RefuseKeeps(w: World)
    requires Slotted(w) && Counted(w) && w.accept.Refusing?
    ensures Slotted(Apply(w, CloseRefused)) && Counted(Apply(w, CloseRefused)) && !w.freed
  {
  }

  lemma DeferOwned(w: World, j: nat)
    requires Owned(w) && Slotted(w) && At(w, j, Calling)
    ensures Owned(DeferStep(w, j))
  {
    hide Owned, Slotted;
    NumbersFree(w);
    var v := DeferStep(w, j);
    if !MayDefer(w, j) {
      OwnedSame(w, v);
    } else {
      OwnedMove(w, v, ByJob(j), ByReply(w.nextReply));
    }
  }

  lemma DeferSlotted(w: World, j: nat)
    requires Slotted(w) && At(w, j, Calling)
    ensures Slotted(DeferStep(w, j))
  {
    hide SlotsOk;
    if MayDefer(w, j) { GivesUp(w.slots, w.jobs, w.nextJob, j, Calling); }
  }

  lemma DeferCounted(w: World, j: nat)
    requires Counted(w) && !w.bad && At(w, j, Calling)
    requires w.jobs != map[]
    ensures Counted(DeferStep(w, j)) && !DeferStep(w, j).bad
  {
    var v := DeferStep(w, j);
    SameCount(w.jobs, j, v.jobs[j]);
    assert v.jobs == w.jobs[j := v.jobs[j]];
  }

  lemma ReleaseOwned(w: World, j: nat)
    requires Owned(w) && At(w, j, Releasing)
    ensures Owned(ReleaseStep(w, j)) && (ReleaseStep(w, j).bad ==> w.bad || w.freed)
  {
    hide Owned, ReleaseStep;
    var v := ReleaseStep(w, j);
    ReleaseShape(w, j);
    ReleaseCloses(w, j);
    assert forall h :: h != ByJob(j) ==> HeldBy(v, h) == HeldBy(w, h);
    if w.jobs[j].conn.None? {
      OwnedSame(w, v);
    } else {
      OwnedClose(w, v, ByJob(j));
    }
  }

  lemma ReleaseCloses(w: World, j: nat)
    requires At(w, j, Releasing)
    ensures var v, c := ReleaseStep(w, j), w.jobs[j].conn;
      if c.None? then SameTable(w, v) && v.bad == (w.bad || w.freed)
      else v.open == w.open - {c.value.fd} && v.closed == w.closed + {c.value.serial} && v.nextSerial == w.nextSerial
           && v.bad == (w.bad || w.freed || !IsOpen(w, c.value) || c.value.serial in w.closed)
  {
  }

  lemma ReleaseShape(w: World, j: nat)
    requires At(w, j, Releasing)
    ensures var v, job := ReleaseStep(w, j), w.jobs[j];
      && v.jobs == w.jobs[j := job.(conn := None, phase := Released)] && v.nextJob == w.nextJob
      && v.slots == (if job.conn.Some? then w.slots[job.slot := None] else w.slots)
      && v.handlers == w.handlers && v.accept == w.accept && v.joined == w.joined && v.stopper == w.stopper
      && v.freed == w.freed && v.replies == w.replies && v.nextReply == w.nextReply
  {
    hide IsOpen;
  }

  lemma ReleaseSlotted(w: World, j: nat)
    requires Slotted(w) && At(w, j, Releasing)
    ensures Slotted(ReleaseStep(w, j))
  {
    hide SlotsOk, ReleaseStep;
    ReleaseShape(w, j);
    if w.jobs[j].conn.Some? {
      NotUnslotted(w, j);
      GivesUp(w.slots, w.jobs, w.nextJob, j, Released);
    } else {
      StaysOut(w.slots, w.jobs, w.nextJob, j);
    }
  }

  lemma NotUnslotted(w: World, j: nat)
    requires At(w, j, Releasing)
    ensures !w.jobs[j].phase.Unslotted?
  {
  }

  lemma StaysOut(slots: seq<Option<Entry>>, jobs: map<nat, Job>, nextJob: nat, j: nat)
    requires SlotsOk(slots, jobs, nextJob) && j in jobs && jobs[j].conn.None? && !jobs[j].phase.Unslotted?
    ensures SlotsOk(slots, jobs[j := jobs[j].(conn := None, phase := Released)], nextJob)
  {
  }

  lemma ReleaseCounted(w: World, j: nat)
    requires Counted(w) && At(w, j, Releasing)
    ensures Counted(ReleaseStep(w, j)) && !w.freed
  {
    hide ReleaseStep;
    ReleaseShape(w, j);
    SameCount(w.jobs, j, w.jobs[j].(conn := None, phase := Released));
  }

  lemma FinishOwned(w: World, j: nat)
    requires Owned(w) && Slotted(w) && At(w, j, Released)
    ensures Owned(FinishStep(w, j))
  {
    hide Owned;
    OwnedSame(w, FinishStep(w, j));
  }

  lemma FinishSlotted(w: World, j: nat)
    requires Slotted(w) && At(w, j, Released)
    ensures Slotted(FinishStep(w, j))
  {
  }

  lemma FinishCounted(w: World, j: nat)
    requires Counted(w) && !w.bad && At(w, j, Released)
    ensures Counted(FinishStep(w, j)) && !FinishStep(w, j).bad
  {
    DropCount(w.jobs, j);
  }

  lemma JobHolds(w: World, j: nat)
    requires Owned(w) && Slotted(w) && j in w.jobs
    ensures w.jobs[j].conn.Some? ==> IsOpen(w, w.jobs[j].conn.value)
    ensures w.jobs[j].phase.Holding() ==> w.jobs[j].conn.Some?
  {
    assert HeldBy(w, ByJob(j)) == w.jobs[j].conn;
  }

  /** A step of a worker that takes it to its next phase and does nothing else, unless it was wrong to take it. */
  predicate Moves(w: World, v: World, j: nat) {
    && j in w.jobs && j in v.jobs && v == w.(jobs := w.jobs[j := w.jobs[j].(phase := v.jobs[j].phase)], bad := v.bad)
    && (w.jobs[j].phase.Spawned? || w.jobs[j].phase.Handling? || w.jobs[j].phase.Calling?)
    && (v.jobs[j].phase.Calling? || v.jobs[j].phase.Releasing? || (v.jobs[j].phase.Handling? && w.jobs[j].phase.Spawned?))
    && (v.bad ==> w.bad || w.freed || if w.jobs[j].conn.Some? then !IsOpen(w, w.jobs[j].conn.value) else w.jobs[j].phase.Handling?)
  }

  lemma BeginMoves(w: World, j: nat)
    requires At(w, j, Spawned)
    ensures Moves(w, Apply(w, Begin(j)), j)
  {
    hide IsOpen, AcceptStep, RegisterStep, ClearStep, UncountStep, DeferStep, ReleaseStep, FinishStep, Close;
  }

  lemma HandleMoves(w: World, j: nat, calls: bool)
    requires At(w, j, Handling)
    ensures Moves(w, Apply(w, Handle(j, calls)), j)
  {
    hide IsOpen, AcceptStep, RegisterStep, ClearStep, UncountStep, DeferStep, ReleaseStep, FinishStep, Close;
  }

  lemma ReturnMoves(w: World, j: nat)
    requires At(w, j, Calling)
    ensures Moves(w, Apply(w, Return(j)), j)
  {
    hide IsOpen, AcceptStep, RegisterStep, ClearStep, UncountStep, DeferStep, ReleaseStep, FinishStep, Close;
  }

  lemma MovesCounted(w: World, v: World, j: nat)
    requires Counted(w) && Moves(w, v, j)
    ensures Counted(v) && !w.freed
  {
    hide IsOpen;
    SameCount(w.jobs, j, v.jobs[j]);
  }

  lemma MovesKeep(w: World, v: World, j: nat)
    requires Ok(w) && Moves(w, v, j)
    ensures Ok(v)
  {
    hide Owned, Slotted, Counted, IsOpen;
    MovesCounted(w, v, j);
    JobHolds(w, j);
    PhaseKeeps(w, v, j, v.jobs[j].phase);
  }

  lemma ReplyOwned(w: World, r: nat)
    requires Owned(w) && r in w.replies
    ensures Owned(Apply(w, EndReply(r))) && (Apply(w, EndReply(r)).bad ==> w.bad)
  {
    hide Owned;
    OwnedClose(w, Apply(w, EndReply(r)), ByReply(r));
  }

  lemma ReplyKeeps(w: World, r: nat)
    requires Slotted(w) && Counted(w) && r in w.replies
    ensures Slotted(Apply(w, EndReply(r))) && Counted(Apply(w, EndReply(r)))
  {
  }

  /** What the stop shuts down under the lock is open, and is the connection it was. */
  lemma SlotsOpen(w: World)
    requires Owned(w) && Slotted(w)
    ensures forall s :: 0 <= s < SLOTS && w.slots[s].Some? ==> IsOpen(w, w.slots[s].value.conn)
  {
    forall s | 0 <= s < SLOTS && w.slots[s].Some? ensures IsOpen(w, w.slots[s].value.conn) {
      assert HeldBy(w, ByJob(w.slots[s].value.owner)) == Some(w.slots[s].value.conn);
    }
  }

  lemma StopCounted(w: World, a: Action)
    requires Counted(w) && Enabled(w, a)
    requires a.BeginStop? || a.Sweep? || a.Join? || a.Wait? || a.Unlisten? || a.Free?
    ensures Counted(Apply(w, a)) && !w.freed
  {
    hide AcceptStep, RegisterStep, ClearStep, UncountStep, DeferStep, ReleaseStep, FinishStep, Close;
    if a.Wait? && w.handlers == 0 {
      KeyCount(w.jobs);
      assert w.jobs.Keys == {};
    }
  }

  lemma StopKeeps(w: World, a: Action)
    requires Ok(w) && Enabled(w, a)
    requires a.BeginStop? || a.Sweep? || a.Join? || a.Wait? || a.Unlisten? || a.Free?
    ensures Ok(Apply(w, a))
  {
    hide Owned, Slotted, Counted, AcceptStep, RegisterStep, ClearStep, UncountStep, DeferStep, ReleaseStep, FinishStep, Close;
    QuietKeeps(w, Apply(w, a));
    StopCounted(w, a);
    if a.Sweep? {
      SlotsOpen(w);
      FourSlots(w);
    }
  }

  lemma FourSlots(w: World)
    requires Slotted(w)
    ensures |w.slots| == SLOTS
  {
  }

  lemma WaitingKeeps(w: World, a: Action)
    requires Ok(w) && Enabled(w, a) && (a.AcceptExit? || a.Refuse? || a.Admit?)
    ensures Ok(Apply(w, a))
  {
    hide Owned, Slotted;
    QuietKeeps(w, Apply(w, a));
  }

  /** Every step of every thread keeps the invariant. */
  lemma Kept(w: World, a: Action)
    requires Ok(w) && Enabled(w, a)
    ensures Ok(Apply(w, a))
  {
    hide Owned, Slotted, Counted, AcceptStep, RegisterStep, ClearStep, UncountStep, DeferStep, ReleaseStep, FinishStep, Close;
    match a {
      case AcceptConn(fd) => AcceptKeeps(w, fd);
      case Register =>
        RegisterOwned(w);
        RegisterSlotted(w);
        RegisterCounted(w);
      case Spawn(ok) => SpawnKeeps(w, ok);
      case ClearSlot =>
        ClearOwned(w);
        ClearSlotted(w);
        ClearCounted(w);
      case Uncount =>
        UncountOwned(w);
        UncountSlotted(w);
        UncountCounted(w);
      case CloseRefused =>
        RefuseOwned(w);
        RefuseKeeps(w);
      case Begin(j) =>
        BeginMoves(w, j);
        MovesKeep(w, Apply(w, a), j);
      case Handle(j, calls) =>
        HandleMoves(w, j, calls);
        MovesKeep(w, Apply(w, a), j);
      case Return(j) =>
        ReturnMoves(w, j);
        MovesKeep(w, Apply(w, a), j);
      case Defer(j) =>
        DeferOwned(w, j);
        DeferSlotted(w, j);
        DeferCounted(w, j);
      case Release(j) =>
        ReleaseOwned(w, j);
        ReleaseSlotted(w, j);
        ReleaseCounted(w, j);
      case Finish(j) =>
        FinishOwned(w, j);
        FinishSlotted(w, j);
        FinishCounted(w, j);
      case EndReply(r) =>
        ReplyOwned(w, r);
        ReplyKeeps(w, r);
      case AcceptExit => WaitingKeeps(w, a);
      case Refuse => WaitingKeeps(w, a);
      case Admit => WaitingKeeps(w, a);
      case _ => StopKeeps(w, a);
    }
  }

  // ---- runs ----------------------------------------------------------------------------------

  ghost predicate IsRun(ws: seq<World>, acts: seq<Action>) {
    && |ws| == |acts| + 1 && Initial(ws[0])
    && forall i :: 0 <= i < |acts| ==> Enabled(ws[i], acts[i]) && ws[i + 1] == Apply(ws[i], acts[i])
  }

  lemma {:induction false} RunOk(ws: seq<World>, acts: seq<Action>, n: nat)
    requires IsRun(ws, acts) && n < |ws|
    ensures Ok(ws[n])
  {
    hide Ok, Enabled, Apply, Initial;
    if n == 0 {
      InitialOk(ws[0]);
    } else {
      RunOk(ws, acts, n - 1);
      Kept(ws[n - 1], acts[n - 1]);
    }
  }

  /** Main result: in every interleaving no descriptor is closed twice, none is read, written or shut down by anyone who
      does not own it or after it was closed, and no thread uses the server after it was freed. */
  lemma NoMisuse(ws: seq<World>, acts: seq<Action>, n: nat)
    requires IsRun(ws, acts) && n < |ws|
    ensures !ws[n].bad
  {
    hide IsRun, Owned, Slotted, Counted;
    RunOk(ws, acts, n);
  }

  /** Every connection that was accepted and not yet closed has one owner and no other. */
  lemma ExactlyOneOwner(ws: seq<World>, acts: seq<Action>, n: nat, serial: nat)
    requires IsRun(ws, acts) && n < |ws| && serial < ws[n].nextSerial && serial !in ws[n].closed
    ensures exists h :: HeldBy(ws[n], h).Some? && HeldBy(ws[n], h).value.serial == serial
    ensures forall g, h :: (HeldBy(ws[n], g).Some? && HeldBy(ws[n], h).Some?
      && HeldBy(ws[n], g).value.serial == serial == HeldBy(ws[n], h).value.serial) ==> g == h
  {
    hide IsRun, HeldBy, Slotted, Counted;
    RunOk(ws, acts, n);
    var w := ws[n];
    var fd :| fd in w.open && w.open[fd] == serial;
    var h :| HeldBy(w, h) == Some(Conn(fd, w.open[fd]));
    forall g, k | HeldBy(w, g).Some? && HeldBy(w, k).Some? && HeldBy(w, g).value.serial == serial == HeldBy(w, k).value.serial
      ensures g == k
    {
      assert IsOpen(w, HeldBy(w, g).value) && IsOpen(w, HeldBy(w, k).value);
    }
  }

  /** Once four requests at most were counted, registration always finds a slot. */
  lemma AdmittedFindsSlot(ws: seq<World>, acts: seq<Action>, n: nat)
    requires IsRun(ws, acts) && n < |ws| && ws[n].accept.Admitted?
    ensures |ws[n].slots| == SLOTS && FreeSlot(ws[n].slots) < SLOTS
  {
    hide IsRun, Owned;
    RunOk(ws, acts, n);
    FourSlots(ws[n]);
    RoomForHandler(ws[n]);
  }

  /** The server is freed only when the accept thread is gone and no worker is left; the connections still open then
      are deferred replies, which do not need it. */
  lemma FreedLast(ws: seq<World>, acts: seq<Action>, n: nat, fd: nat)
    requires IsRun(ws, acts) && n < |ws| && ws[n].freed
    ensures ws[n].accept.Exited? && ws[n].jobs == map[] && ws[n].handlers == 0
    ensures fd in ws[n].open ==> exists r :: r in ws[n].replies && ws[n].replies[r].fd == fd
  {
    hide IsRun, Slotted;
    RunOk(ws, acts, n);
    var w := ws[n];
    if fd in w.open {
      var h :| HeldBy(w, h) == Some(Conn(fd, w.open[fd]));
      assert h.ByReply?;
    }
  }
}
