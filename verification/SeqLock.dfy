/** Publishing controller samples into the game: the double-banked sequence lock.

    A writer copies a bank of pads into the target process, then stores the sequence, the lease deadline and the
    active flag, one remote write each; installing routes rewrites the whole argument block under an odd routing
    epoch. Inside the game a stub copies one pad byte by byte and retries when sequence or epoch moved. Every load
    and store is one step, steps of writer and reader interleave freely, and memory is sequentially consistent. Any
    remote write may fail, with or without having taken effect, and the writer may die at any point and be
    succeeded by one that adopts what it left behind.

    Sequence and epoch are 32-bit counters. The state keeps how often each advanced (`seqAt`, `epochAt`); the program
    sees only `SequenceValue(seqAt)` and `epochAt % 2^32`. */
module SeqLock {
  import opened Wrappers

  const WRAP: nat := 0x1_0000_0000
  const PAD_SIZE: nat := 120
  const CONNECTED: nat := 76
  const ROUTES: nat := 4
  const LEASE: nat := 250_000_000

  // ---- the sequence counter ------------------------------------------------------------------

  /** The successor skips 0 and 1 at the wrap so that banks keep alternating. */
  function NextSequence(current: nat): nat {
    if current == WRAP - 1 then 2 else current + 1
  }

  /** Counter value after n publications. */
  function SequenceValue(n: nat): (v: nat)
    ensures v < WRAP
  {
    if n < WRAP then n else 2 + (n - 2) % (WRAP - 2)
  }

  lemma NextSequenceIs(n: nat)
    ensures SequenceValue(n + 1) == NextSequence(SequenceValue(n))
  {
    if n >= WRAP {
      var k := n - 2;
      var q, r := k / (WRAP - 2), k % (WRAP - 2);
      if r + 1 < WRAP - 2 {
        Residue(k + 1, WRAP - 2, q, r + 1);
      } else {
        Residue(k + 1, WRAP - 2, q + 1, 0);
      }
    }
  }

  lemma Residue(k: nat, d: nat, q: nat, r: nat)
    requires d == WRAP - 2 && r < d && k == q * d + r
    ensures k % d == r
  {
  }

  function Modulo(k: nat, d: nat): nat
    requires d > 0
  {
    k % d
  }

  lemma SequenceIs(n: nat)
    ensures SequenceValue(n) == if n < WRAP then n else 2 + Modulo(n - 2, WRAP - 2)
  {
  }

  lemma ModuloParity(k: nat, d: nat, h: nat)
    requires d == 2 * h > 0
    ensures Modulo(k, d) % 2 == k % 2
  {
    var q, r := k / d, k % d;
    assert k == d * q + r;
    assert d * q == 2 * (h * q);
  }

  /** The bank index alternates with every publication, also across the wrap. */
  lemma BankAlternates(n: nat)
    ensures SequenceValue(n) % 2 == n % 2
  {
    hide SequenceValue, Modulo;
    SequenceIs(n);
    if n >= WRAP { ModuloParity(n - 2, WRAP - 2, 0x7FFF_FFFF); }
  }

  /** Equal values mean equal counts unless the counter went all the way round. */
  lemma SequenceDistinct(a: nat, b: nat)
    requires a <= b < a + WRAP - 2 && SequenceValue(a) == SequenceValue(b)
    ensures a == b
  {
  }

  // ---- state ---------------------------------------------------------------------------------

  type Pad = p: seq<int> | |p| == PAD_SIZE witness seq(PAD_SIZE, _ => 0)

  type Bank = b: seq<Pad> | |b| == ROUTES witness [ZeroPad(), ZeroPad(), ZeroPad(), ZeroPad()]

  function ZeroPad(): Pad { seq(PAD_SIZE, _ => 0) }

  function ZeroBank(): Bank { [ZeroPad(), ZeroPad(), ZeroPad(), ZeroPad()] }

  type Handles = h: seq<int> | |h| == ROUTES witness [0, 0, 0, 0]

  /** The argument block in the target process. */
  datatype Shared = Shared(active: bool, seqAt: nat, epochAt: nat, count: nat, handles: Handles, banks: seq<Bank>,
                           deadline: nat)

  datatype Stage = Empty | Live | Reusable | Quarantined

  /** What the writer remembers; the routes are those of the last completed installation. */
  datatype Bridge = Bridge(stage: Stage, seqAt: nat, epochAt: nat, count: nat, handles: Handles)

  /** One publication: its pads, the routes they belong to, and the clock read for its lease. */
  datatype Publication = Publication(bank: Bank, count: nat, handles: Handles, clock: nat, seqAt: nat, epochAt: nat)

  datatype Plan = Plan(odd: nat, count: nat, handles: Handles)

  datatype Writer =
    | Idle
    | OddWrite(plan: Plan) | ArgsWrite(plan: Plan) | EvenWrite(plan: Plan) | Hooking
    | BankWrite(pub: Publication) | SequenceWrite(pub: Publication) | DeadlineWrite(pub: Publication)
    | ActiveWrite(pub: Publication)
    | Removing

  datatype Point =
    | Off | LoadEpoch | LoadSequence | LoadCount | Scan | Copy | CheckSequence | CheckEpoch | LoadDeadline | LoadClock
    | RecheckDeadline | LoadActive | FinalEpoch | FinalSequence | Rejected | Accepted

  /** The stub's locals. `epochAt`, `seqAt` and `sample` are history: the counts behind the loaded values and the
      publication current when the copy was confirmed. */
  datatype Reader = Reader(at: Point, handle: int, attempt: nat, epoch: nat, sequence: nat, epochAt: nat, seqAt: nat,
                           count: nat, slot: nat, route: int, dst: seq<int>, deadline: nat, now: nat,
                           sample: Option<Publication>)

  /** `current` is the publication behind the stored sequence, if any since the routes were installed; `published`
      collects all of them. */
  datatype World = World(mem: Shared, bridge: Bridge, writer: Writer, reader: Reader, clock: nat,
                         current: Option<Publication>, published: set<Publication>)

  datatype Action =
    | Tick(amount: nat)
    | OtherReaderExpires
    | BeginInstall(count: nat, handles: Handles)
    | StoreOdd(took: bool, ok: bool)
    | ClearActive | ResetSequence | StoreCount | StoreHandle(slot: nat) | ZeroByte(side: nat, route: nat, i: nat)
    | ClearDeadline | ArgsDone(ok: bool)
    | StoreEven(took: bool, ok: bool) | HooksDone(ok: bool)
    | BeginPublish(bank: Bank) | RefusePublish
    | StoreByte(route: nat, i: nat) | BankDone(ok: bool)
    | StoreSequence(took: bool, ok: bool) | StoreDeadline(took: bool, ok: bool) | StoreActive(took: bool, ok: bool)
    | BeginRemove | Remove(took: bool, ok: bool, restored: bool)
    | Adopt
    | Start(handle: int) | Step(clockOk: bool)

  // ---- what a step does ----------------------------------------------------------------------

  /** The odd epoch announced by the next installation: (epoch + 1) | 1. */
  function OddAfter(epochAt: nat): nat {
    if epochAt % 2 == 0 then epochAt + 1 else epochAt + 2
  }

  /** The block an installation writes has arrived. */
  predicate ArgsArrived(m: Shared, b: Bridge, plan: Plan) {
    && !m.active && m.seqAt == b.seqAt && m.count == plan.count && m.handles == plan.handles && m.deadline == 0
    && m.banks == [ZeroBank(), ZeroBank()]
  }

  function PutByte(banks: seq<Bank>, bank: nat, route: nat, i: nat, v: int): (r: seq<Bank>)
    requires |banks| == 2 && bank < 2 && route < ROUTES && i < PAD_SIZE
    ensures |r| == 2
  {
    var pad: Pad := banks[bank][route][i := v];
    var b: Bank := banks[bank][route := pad];
    banks[bank := b]
  }

  /** A remote write that reports success has taken effect. */
  predicate Honest(took: bool, ok: bool) { ok ==> took }

  predicate Enabled(w: World, a: Action) {
    |w.mem.banks| == 2 &&
    match a
    case Tick(_) => true
    case OtherReaderExpires => true
    case BeginInstall(count, _) =>
      w.writer.Idle? && (w.bridge.stage.Empty? || w.bridge.stage.Reusable?) && 1 <= count <= ROUTES
    case StoreOdd(took, ok) => w.writer.OddWrite? && Honest(took, ok)
    case ClearActive => w.writer.ArgsWrite?
    case ResetSequence => w.writer.ArgsWrite?
    case StoreCount => w.writer.ArgsWrite?
    case StoreHandle(slot) => w.writer.ArgsWrite? && slot < ROUTES
    case ZeroByte(side, route, i) => w.writer.ArgsWrite? && side < 2 && route < ROUTES && i < PAD_SIZE
    case ClearDeadline => w.writer.ArgsWrite?
    case ArgsDone(ok) => w.writer.ArgsWrite? && (ok ==> ArgsArrived(w.mem, w.bridge, w.writer.plan))
    case StoreEven(took, ok) => w.writer.EvenWrite? && Honest(took, ok)
    case HooksDone(_) => w.writer.Hooking?
    case BeginPublish(_) => w.writer.Idle? && w.bridge.stage.Live?
    case RefusePublish => w.writer.Idle? && w.bridge.stage.Live?
    case StoreByte(route, i) => w.writer.BankWrite? && route < ROUTES && i < PAD_SIZE
    case BankDone(ok) =>
      w.writer.BankWrite? && (ok ==> w.mem.banks[(w.bridge.seqAt + 1) % 2] == w.writer.pub.bank)
    case StoreSequence(took, ok) => w.writer.SequenceWrite? && Honest(took, ok)
    case StoreDeadline(took, ok) => w.writer.DeadlineWrite? && Honest(took, ok)
    case StoreActive(took, ok) => w.writer.ActiveWrite? && Honest(took, ok)
    case BeginRemove => w.writer.Idle? && !w.bridge.stage.Empty?
    case Remove(took, ok, _) => w.writer.Removing? && Honest(took, ok)
    case Adopt => true
    case Start(_) => w.reader.at in {Off, Rejected, Accepted}
    case Step(_) => w.reader.at !in {Off, Rejected, Accepted}
  }

  function Apply(w: World, a: Action): World
    requires Enabled(w, a)
  {
    var m, b := w.mem, w.bridge;
    match a
    case Tick(amount) => w.(clock := w.clock + amount)
    case OtherReaderExpires => w.(mem := m.(active := false))
    case BeginInstall(count, handles) =>
      w.(bridge := b.(stage := Quarantined), writer := OddWrite(Plan(OddAfter(b.epochAt), count, handles)))
    case StoreOdd(took, ok) =>
      w.(mem := if took then m.(epochAt := w.writer.plan.odd) else m,
         writer := if ok then ArgsWrite(w.writer.plan) else Removing)
    case ClearActive => w.(mem := m.(active := false))
    case ResetSequence => w.(mem := m.(seqAt := b.seqAt))
    case StoreCount => w.(mem := m.(count := w.writer.plan.count))
    case StoreHandle(slot) =>
      var handles: Handles := m.handles[slot := w.writer.plan.handles[slot]];
      w.(mem := m.(handles := handles))
    case ZeroByte(side, route, i) => w.(mem := m.(banks := PutByte(m.banks, side, route, i, 0)))
    case ClearDeadline => w.(mem := m.(deadline := 0))
    case ArgsDone(ok) => w.(writer := if ok then EvenWrite(w.writer.plan) else Removing)
    case StoreEven(took, ok) =>
      w.(mem := if took then m.(epochAt := w.writer.plan.odd + 1) else m,
         bridge := if ok then b.(epochAt := w.writer.plan.odd + 1, count := w.writer.plan.count,
                                 handles := w.writer.plan.handles)
                   else b.(epochAt := w.writer.plan.odd + 1),
         current := if took then None else w.current,
         writer := if ok then Hooking else Removing)
    case HooksDone(ok) =>
      if ok then w.(bridge := b.(stage := Live), writer := Idle) else w.(writer := Removing)
    case BeginPublish(bank) =>
      w.(writer := BankWrite(Publication(bank, b.count, b.handles, w.clock, b.seqAt + 1, b.epochAt)))
    case RefusePublish => w.(writer := Removing)
    case StoreByte(route, i) =>
      w.(mem := m.(banks := PutByte(m.banks, (b.seqAt + 1) % 2, route, i, w.writer.pub.bank[route][i])))
    case BankDone(ok) => w.(writer := if ok then SequenceWrite(w.writer.pub) else Removing)
    case StoreSequence(took, ok) =>
      w.(mem := if took then m.(seqAt := b.seqAt + 1) else m,
         current := if took then Some(w.writer.pub) else w.current,
         published := if took then w.published + {w.writer.pub} else w.published,
         writer := if ok then DeadlineWrite(w.writer.pub) else Removing)
    case StoreDeadline(took, ok) =>
      w.(mem := if took then m.(deadline := w.writer.pub.clock + LEASE) else m,
         writer := if ok then ActiveWrite(w.writer.pub) else Removing)
    case StoreActive(took, ok) =>
      w.(mem := if took then m.(active := true) else m,
         bridge := if ok then b.(seqAt := b.seqAt + 1) else b,
         writer := if ok then Idle else Removing)
    case BeginRemove => w.(writer := Removing)
    case Remove(took, ok, restored) =>
      w.(mem := if took then m.(active := false) else m,
         bridge := b.(stage := if ok && restored then Reusable else Quarantined), writer := Idle)
    case Adopt => w.(bridge := Bridge(Quarantined, m.seqAt, m.epochAt, 0, m.handles), writer := Removing)
    case Start(handle) => StartRead(w, handle)
    case Step(clockOk) => ReadStep(w, clockOk)
  }

  function StartRead(w: World, handle: int): World {
    var begun := Reader(if w.mem.active then LoadEpoch else Rejected, handle, 0, 0, 0, 0, 0, 0, 0, -1, [], 0, 0, None);
    w.(reader := begun)
  }

  /** `continue` in the retry loop. */
  function Retry(r: Reader): Reader {
    r.(at := if r.attempt + 1 < 3 then LoadEpoch else Rejected, attempt := r.attempt + 1)
  }

  function ReadStep(w: World, clockOk: bool): World {
    if w.reader.at.RecheckDeadline? && w.reader.deadline == w.mem.deadline then
      w.(mem := w.mem.(active := false), reader := w.reader.(at := Rejected))
    else w.(reader := ReaderAfter(w.reader, w.mem, w.clock, w.current, clockOk))
  }

  /** One load of the stub and the branch it decides. */
  function ReaderAfter(r: Reader, m: Shared, clock: nat, current: Option<Publication>, clockOk: bool): Reader {
    match r.at
    case LoadEpoch => r.(at := LoadSequence, epoch := m.epochAt % WRAP, epochAt := m.epochAt)
    case LoadSequence =>
      var q := r.(sequence := SequenceValue(m.seqAt), seqAt := m.seqAt);
      if r.epoch % 2 == 1 then Retry(q) else q.(at := LoadCount)
    case LoadCount => if m.count > ROUTES then r.(at := Rejected) else r.(at := Scan, count := m.count, slot := 0, route := -1)
    case Scan =>
      if r.slot < r.count && r.slot < ROUTES then
        if m.handles[r.slot] == r.handle then
          if r.route >= 0 then r.(at := Rejected) else r.(route := r.slot, slot := r.slot + 1)
        else r.(slot := r.slot + 1)
      else if r.route < 0 then r.(at := Rejected)
      else r.(at := Copy, dst := [])
    case Copy =>
      if |r.dst| < PAD_SIZE && |m.banks| == 2 && 0 <= r.route < ROUTES
      then r.(dst := r.dst + [m.banks[r.sequence % 2][r.route][|r.dst|]])
      else r.(at := CheckSequence)
    case CheckSequence =>
      if r.sequence != SequenceValue(m.seqAt) then Retry(r) else r.(at := CheckEpoch, sample := current)
    case CheckEpoch =>
      if r.epoch != m.epochAt % WRAP then Retry(r)
      else if |r.dst| != PAD_SIZE || r.dst[CONNECTED] == 0 then r.(at := Rejected)
      else r.(at := LoadDeadline)
    case LoadDeadline => r.(at := LoadClock, deadline := m.deadline)
    case LoadClock => r.(now := clock, at := if !clockOk || clock >= r.deadline then RecheckDeadline else LoadActive)
    case RecheckDeadline => Retry(r)
    case LoadActive => r.(at := if m.active then FinalEpoch else Rejected)
    case FinalEpoch => r.(at := if r.epoch == m.epochAt % WRAP then FinalSequence else Rejected)
    case FinalSequence => r.(at := if r.sequence == SequenceValue(m.seqAt) then Accepted else Rejected)
    case _ => r
  }

  // ---- runs ----------------------------------------------------------------------------------

  ghost predicate Initial(w: World) {
    && w.bridge == Bridge(Empty, 0, 0, 0, [0, 0, 0, 0]) && w.writer.Idle? && w.reader.at.Off? && !w.mem.active
    && w.mem.seqAt == 0 && w.mem.epochAt == 0 && w.mem.count == 0 && w.mem.handles == [0, 0, 0, 0] && w.mem.deadline == 0 && w.mem.banks == [ZeroBank(), ZeroBank()]
    && w.current.None? && w.published == {}
  }

  /** The counters did not go round between the reader's loads and now. */
  ghost predicate NoWrap(w: World) {
    w.reader.at !in {Off, LoadEpoch, Rejected, Accepted} ==>
      && w.mem.epochAt < w.reader.epochAt + WRAP
      && (!w.reader.at.LoadSequence? ==> w.mem.seqAt < w.reader.seqAt + WRAP - 2)
  }

  /** A run: the worlds it passes through and the actions between them, in any interleaving. */
  ghost predicate IsRun(ws: seq<World>, acts: seq<Action>) {
    && |ws| == |acts| + 1 && Initial(ws[0])
    && forall i :: 0 <= i < |acts| ==> Enabled(ws[i], acts[i]) && ws[i + 1] == Apply(ws[i], acts[i])
  }

  ghost predicate Bounded(ws: seq<World>) {
    forall i :: 0 <= i < |ws| ==> NoWrap(ws[i])
  }

  // ---- invariant: the writer's side ----------------------------------------------------------

  predicate Even(n: nat) { n % 2 == 0 }

  /** While no installation is under way, the bank of the stored sequence is the current publication's. */
  ghost predicate BankStable(w: World) {
    && |w.mem.banks| == 2
    && (w.current.None? ==> w.mem.banks[w.mem.seqAt % 2] == ZeroBank() && w.mem.deadline == 0)
    && (w.current.Some? ==>
          var p := w.current.value;
          && p in w.published && p.seqAt == w.mem.seqAt && p.epochAt == w.mem.epochAt
          && p.count == w.mem.count && p.handles == w.mem.handles
          && w.mem.banks[w.mem.seqAt % 2] == p.bank
          && w.mem.deadline <= p.clock + LEASE && p.clock <= w.clock)
  }

  ghost predicate Drafted(w: World, p: Publication) {
    && Even(w.mem.epochAt) && w.bridge.stage.Live?
    && w.bridge.epochAt == w.mem.epochAt && w.bridge.count == w.mem.count && w.bridge.handles == w.mem.handles
    && p.seqAt == w.bridge.seqAt + 1 && p.epochAt == w.mem.epochAt && p.count == w.mem.count
    && p.handles == w.mem.handles && p.clock <= w.clock
    && (w.current.Some? ==> w.current.value.clock <= p.clock)
  }

  /** The routes in memory are the ones the writer publishes for. */
  ghost predicate Routed(w: World) {
    && Even(w.mem.epochAt) && w.mem.seqAt == w.bridge.seqAt && w.bridge.epochAt == w.mem.epochAt
    && w.bridge.count == w.mem.count && w.bridge.handles == w.mem.handles
  }

  ghost predicate WriterOk(w: World) {
    && |w.mem.banks| == 2
    && w.mem.epochAt <= OddAfter(w.bridge.epochAt)
    && (Even(w.mem.epochAt) ==> BankStable(w) && w.mem.epochAt <= w.bridge.epochAt)
    && match w.writer
       case Idle =>
         && (w.bridge.stage.Live? ==> Routed(w))
         && (w.bridge.stage.Empty? ==> Even(w.mem.epochAt) && w.mem.seqAt == w.bridge.seqAt)
       case OddWrite(plan) => plan.odd == OddAfter(w.bridge.epochAt)
       case ArgsWrite(plan) => plan.odd == w.mem.epochAt && plan.odd == OddAfter(w.bridge.epochAt)
       case EvenWrite(plan) =>
         plan.odd == w.mem.epochAt && plan.odd == OddAfter(w.bridge.epochAt) && ArgsArrived(w.mem, w.bridge, plan)
       case Hooking => Routed(w)
       case BankWrite(p) => Drafted(w, p) && w.mem.seqAt == w.bridge.seqAt
       case SequenceWrite(p) =>
         Drafted(w, p) && w.mem.seqAt == w.bridge.seqAt && w.mem.banks[(w.bridge.seqAt + 1) % 2] == p.bank
       case DeadlineWrite(p) => Drafted(w, p) && w.current == Some(p) && w.mem.seqAt == w.bridge.seqAt + 1
       case ActiveWrite(p) => Drafted(w, p) && w.current == Some(p) && w.mem.seqAt == w.bridge.seqAt + 1
       case Removing => true
  }

  lemma InitialOk(w: World)
    requires Initial(w)
    ensures WriterOk(w)
  {
  }

  lemma InstallOk(w: World, a: Action)
    requires WriterOk(w) && Enabled(w, a)
    requires w.writer.OddWrite? || w.writer.ArgsWrite? || w.writer.EvenWrite? || w.writer.Hooking? || a.BeginInstall?
    requires !a.Adopt? && !a.Start? && !a.Step? && !a.Tick? && !a.OtherReaderExpires?
    ensures WriterOk(Apply(w, a))
  {
  }

  lemma PublishOk(w: World, a: Action)
    requires WriterOk(w) && Enabled(w, a)
    requires w.writer.BankWrite? || w.writer.SequenceWrite? || w.writer.DeadlineWrite? || w.writer.ActiveWrite?
             || a.BeginPublish? || a.RefusePublish?
    requires !a.Adopt? && !a.Start? && !a.Step? && !a.Tick? && !a.OtherReaderExpires?
    ensures WriterOk(Apply(w, a))
  {
  }

  lemma ReadingOk(w: World, a: Action)
    requires WriterOk(w) && Enabled(w, a) && (a.Start? || a.Step?)
    ensures WriterOk(Apply(w, a))
  {
    hide ReaderAfter, SequenceValue, NextSequence, PutByte, ZeroBank;
  }

  lemma OtherOk(w: World, a: Action)
    requires WriterOk(w) && Enabled(w, a)
    requires a.Adopt? || a.Tick? || a.OtherReaderExpires? || a.BeginRemove? || a.Remove?
    ensures WriterOk(Apply(w, a))
  {
    hide ReaderAfter, SequenceValue, NextSequence, PutByte, ZeroBank;
  }

  /** Every step keeps the writer's invariant. */
  lemma WriterKept(w: World, a: Action)
    requires WriterOk(w) && Enabled(w, a)
    ensures WriterOk(Apply(w, a))
  {
    if a.Start? || a.Step? {
      ReadingOk(w, a);
    } else if a.Adopt? || a.Tick? || a.OtherReaderExpires? || a.BeginRemove? || a.Remove? {
      OtherOk(w, a);
    } else if w.writer.OddWrite? || w.writer.ArgsWrite? || w.writer.EvenWrite? || w.writer.Hooking? || a.BeginInstall? {
      InstallOk(w, a);
    } else {
      PublishOk(w, a);
    }
  }

  // ---- invariant: the reader's side ----------------------------------------------------------

  /** What a step that is not the reader's leaves alone: while the even epoch stays, so do the routes, and while the
      sequence stays too, so do its bank and the publication behind it. */
  ghost predicate Frame(w: World, v: World) {
    && v.reader == w.reader && w.mem.epochAt <= v.mem.epochAt && w.clock <= v.clock && w.published <= v.published
    && |w.mem.banks| == |v.mem.banks| == 2
    && (v.mem.epochAt == w.mem.epochAt && Even(w.mem.epochAt) ==>
          && v.mem.count == w.mem.count && v.mem.handles == w.mem.handles && w.mem.seqAt <= v.mem.seqAt
          && (v.mem.seqAt == w.mem.seqAt ==>
                v.current == w.current && v.mem.banks[v.mem.seqAt % 2] == w.mem.banks[w.mem.seqAt % 2]))
  }

  lemma OtherFrame(w: World, a: Action)
    requires WriterOk(w) && Enabled(w, a) && !a.Start? && !a.Step?
    ensures Frame(w, Apply(w, a))
  {
    hide SequenceValue, ZeroBank, ReaderAfter, Retry;
  }

  /** The routing epoch and the sequence are still the ones the reader loaded. */
  predicate EpochHeld(r: Reader, m: Shared) { m.epochAt == r.epochAt }

  predicate Held(r: Reader, m: Shared) { m.epochAt == r.epochAt && m.seqAt == r.seqAt }

  ghost predicate Loaded(r: Reader, m: Shared) {
    r.epoch == r.epochAt % WRAP && r.epochAt <= m.epochAt
  }

  ghost predicate Sequenced(r: Reader, m: Shared) {
    && Loaded(r, m) && Even(r.epochAt) && r.sequence == SequenceValue(r.seqAt)
    && (EpochHeld(r, m) ==> r.seqAt <= m.seqAt)
  }

  /** Among the first `upto` routes exactly `route` has the handle; none if `route` is negative. */
  predicate OnlyRoute(handles: Handles, handle: int, route: int, upto: nat) {
    && -1 <= route < upto <= ROUTES
    && (route >= 0 ==> handles[route] == handle)
    && forall k :: 0 <= k < upto && k != route ==> handles[k] != handle
  }

  ghost predicate Scanning(r: Reader, m: Shared) {
    && Sequenced(r, m) && r.slot <= r.count <= ROUTES && -1 <= r.route < r.slot
    && (EpochHeld(r, m) ==> r.count == m.count && OnlyRoute(m.handles, r.handle, r.route, r.slot))
  }

  ghost predicate Copying(r: Reader, m: Shared) {
    && Scanning(r, m) && r.slot == r.count && 0 <= r.route && |r.dst| <= PAD_SIZE && |m.banks| == 2
    && (Held(r, m) ==> r.dst == m.banks[m.seqAt % 2][r.route][..|r.dst|])
  }

  /** The reader holds the whole pad of one publication, from the only route with its handle. */
  ghost predicate SampleOk(r: Reader, published: set<Publication>) {
    && r.sample.Some?
    && var p := r.sample.value;
    && p in published && p.seqAt == r.seqAt && p.count <= ROUTES && 0 <= r.route
    && OnlyRoute(p.handles, r.handle, r.route, p.count)
    && r.dst == p.bank[r.route] && r.dst[CONNECTED] != 0
  }

  /** Before the connected byte is looked at the copy may also be the cleared bank of a new installation. */
  ghost predicate Confirmed(r: Reader, published: set<Publication>) {
    && 0 <= r.route < ROUTES
    && match r.sample
       case None => r.dst == ZeroPad()
       case Some(p) =>
         && p in published && p.seqAt == r.seqAt && p.count <= ROUTES
         && OnlyRoute(p.handles, r.handle, r.route, p.count) && r.dst == p.bank[r.route]
  }

  ghost predicate Dated(r: Reader, w: World) {
    && Sequenced(r, w.mem) && SampleOk(r, w.published)
    && (Held(r, w.mem) ==> w.current == r.sample)
  }

  /** While epoch and sequence are held, the loaded deadline is the sample's own. */
  ghost predicate Leased(r: Reader, w: World) {
    Dated(r, w) && (Held(r, w.mem) ==> r.deadline <= r.sample.value.clock + LEASE)
  }

  ghost predicate ReaderOk(w: World) {
    var r, m := w.reader, w.mem;
    match r.at
    case LoadSequence => Loaded(r, m)
    case LoadCount => Sequenced(r, m)
    case Scan => Scanning(r, m)
    case Copy => Copying(r, m)
    case CheckSequence => Copying(r, m) && |r.dst| == PAD_SIZE
    case CheckEpoch => Sequenced(r, m) && (EpochHeld(r, m) ==> Confirmed(r, w.published) && (Held(r, m) ==> w.current == r.sample))
    case LoadDeadline => Dated(r, w)
    case LoadClock => Leased(r, w)
    case LoadActive => Leased(r, w) && r.now < r.deadline
    case FinalEpoch => Leased(r, w) && r.now < r.deadline
    case FinalSequence => Leased(r, w) && r.now < r.deadline
    case Accepted => SampleOk(r, w.published) && r.now < r.deadline
    case _ => true
  }

  lemma ReaderFramed(w: World, v: World)
    requires WriterOk(w) && ReaderOk(w) && Frame(w, v)
    ensures ReaderOk(v)
  {
    hide WriterOk, SequenceValue, ZeroPad, OnlyRoute;
  }

  lemma EpochDistinct(a: nat, b: nat)
    requires a <= b < a + WRAP && a % WRAP == b % WRAP
    ensures a == b
  {
  }

  lemma StepEarly(w: World, ok: bool)
    requires WriterOk(w) && ReaderOk(w) && NoWrap(w)
    requires w.reader.at.LoadEpoch? || w.reader.at.LoadSequence? || w.reader.at.LoadCount?
    ensures ReaderOk(ReadStep(w, ok))
  {
    hide SequenceValue, Confirmed, Dated, Leased, SampleOk;
  }

  lemma StepScan(w: World, ok: bool)
    requires WriterOk(w) && ReaderOk(w) && NoWrap(w) && w.reader.at.Scan?
    ensures ReaderOk(ReadStep(w, ok))
  {
    hide SequenceValue, Confirmed, Dated, Leased, SampleOk;
  }

  lemma StepCopy(w: World, ok: bool)
    requires WriterOk(w) && ReaderOk(w) && NoWrap(w)
    requires w.reader.at.Copy?
    ensures ReaderOk(ReadStep(w, ok))
  {
    BankAlternates(w.reader.seqAt);
  }

  lemma StepCheckSequence(w: World, ok: bool)
    requires WriterOk(w) && ReaderOk(w) && NoWrap(w)
    requires w.reader.at.CheckSequence?
    ensures ReaderOk(ReadStep(w, ok))
  {
    hide SequenceValue, Apply, Enabled;
    var r, m := w.reader, w.mem;
    if EpochHeld(r, m) && r.sequence == SequenceValue(m.seqAt) { SequenceDistinct(r.seqAt, m.seqAt); }
  }

  lemma StepCheckEpoch(w: World, ok: bool)
    requires WriterOk(w) && ReaderOk(w) && NoWrap(w)
    requires w.reader.at.CheckEpoch?
    ensures ReaderOk(ReadStep(w, ok))
  {
    hide SequenceValue, Apply, Enabled;
    var r, m := w.reader, w.mem;
    if r.epoch == m.epochAt % WRAP { EpochDistinct(r.epochAt, m.epochAt); }
  }

  lemma StepLate(w: World, ok: bool)
    requires WriterOk(w) && ReaderOk(w) && NoWrap(w)
    requires w.reader.at in {LoadDeadline, LoadClock, RecheckDeadline, LoadActive, FinalEpoch, FinalSequence}
    ensures ReaderOk(ReadStep(w, ok))
  {
    hide SequenceValue, Apply, Enabled;
  }

  ghost predicate Ok(w: World) { WriterOk(w) && ReaderOk(w) }

  /** Every step of writer, reader, other readers and clock keeps the invariant. */
  lemma Kept(w: World, a: Action)
    requires Ok(w) && NoWrap(w) && Enabled(w, a)
    ensures Ok(Apply(w, a))
  {
    hide WriterOk, ReaderOk, ReadStep, NoWrap, Frame;
    WriterKept(w, a);
    if a.Start? {
      StartOk(w, a.handle);
    } else if a.Step? {
      StepOk(w, a.clockOk);
    } else {
      OtherFrame(w, a);
      ReaderFramed(w, Apply(w, a));
    }
  }

  lemma StartOk(w: World, handle: int)
    ensures ReaderOk(StartRead(w, handle))
  {
  }

  lemma StepOk(w: World, ok: bool)
    requires WriterOk(w) && ReaderOk(w) && NoWrap(w) && w.reader.at !in {Off, Rejected, Accepted}
    ensures ReaderOk(ReadStep(w, ok))
  {
    hide WriterOk, ReaderOk, ReadStep, NoWrap;
    match w.reader.at {
      case Copy => StepCopy(w, ok);
      case CheckSequence => StepCheckSequence(w, ok);
      case CheckEpoch => StepCheckEpoch(w, ok);
      case LoadEpoch => StepEarly(w, ok);
      case LoadSequence => StepEarly(w, ok);
      case LoadCount => StepEarly(w, ok);
      case Scan => StepScan(w, ok);
      case _ => StepLate(w, ok);
    }
  }

  lemma {:induction false} RunOk(ws: seq<World>, acts: seq<Action>, n: nat)
    requires IsRun(ws, acts) && Bounded(ws) && n < |ws|
    ensures Ok(ws[n])
  {
    hide WriterOk, ReaderOk, NoWrap, Enabled, Apply;
    if n == 0 {
      InitialOk(ws[0]);
      StartsOff(ws[0]);
    } else {
      RunOk(ws, acts, n - 1);
      Kept(ws[n - 1], acts[n - 1]);
    }
  }

  lemma StartsOff(w: World)
    requires Initial(w)
    ensures ReaderOk(w)
  {
  }

  /** Main result: whatever the interleaving, a pad the stub accepts is, byte for byte, the pad one single publication
      held for the only route with the requested handle, and it is a connected one. */
  lemma AcceptedIsOnePublication(ws: seq<World>, acts: seq<Action>, n: nat)
    requires IsRun(ws, acts) && Bounded(ws) && n < |ws| && ws[n].reader.at.Accepted?
    ensures SampleOk(ws[n].reader, ws[n].published)
  {
    hide IsRun, Bounded, SampleOk;
    RunOk(ws, acts, n);
  }

  // ---- the lease -----------------------------------------------------------------------------

  /** The accepted sample was published less than the lease before the reader looked at the clock. */
  predicate WithinLease(r: Reader) { r.sample.Some? && r.now < r.sample.value.clock + LEASE }

  /** If the epoch still stands when the sequence is loaded for the last time, the lease holds. */
  lemma AcceptedWithinLease(ws: seq<World>, acts: seq<Action>, n: nat)
    requires IsRun(ws, acts) && Bounded(ws) && n + 1 < |ws|
    requires ws[n].reader.at.FinalSequence? && ws[n + 1].reader.at.Accepted?
    requires ws[n].mem.epochAt == ws[n].reader.epochAt
    ensures WithinLease(ws[n + 1].reader)
  {
    hide SequenceValue, WriterOk, SampleOk;
    RunOk(ws, acts, n);
    var w, a := ws[n], acts[n];
    assert Enabled(w, a) && ws[n + 1] == Apply(w, a);
    OnlyStepMoves(w, a);
    assert NoWrap(w);
    FinalStep(w, a.clockOk);
  }

  lemma OnlyStepMoves(w: World, a: Action)
    requires Enabled(w, a) && w.reader.at.FinalSequence? && Apply(w, a).reader.at.Accepted?
    ensures a.Step?
  {
  }

  lemma FinalStep(w: World, ok: bool)
    requires ReaderOk(w) && NoWrap(w) && w.reader.at.FinalSequence? && w.mem.epochAt == w.reader.epochAt
    requires ReadStep(w, ok).reader.at.Accepted?
    ensures WithinLease(ReadStep(w, ok).reader)
  {
    hide SequenceValue;
    SequenceDistinct(w.reader.seqAt, w.mem.seqAt);
  }

  /** The step does not store a smaller sequence than the one that is there. Only an installation can do so, when a
      publication failed after its sequence was stored and the bridge stores the one before it again. */
  predicate Onward(w: World, a: Action) { a.ResetSequence? ==> w.mem.seqAt <= w.bridge.seqAt }

  predicate Readers(a: Action) { a.Start? || a.Step? }

  /** The read at world n loaded the epoch for the last time in step i. */
  ghost predicate LastWindow(ws: seq<World>, acts: seq<Action>, i: nat, n: nat) {
    && i < n < |ws| == |acts| + 1 && acts[i].Step? && ws[i].reader.at.FinalEpoch? && ws[i + 1].reader.at.FinalSequence?
    && forall k :: i < k < n ==> !Readers(acts[k])
  }

  /** Every read that is about to load the sequence for the last time is in such a window. */
  lemma {:induction false} InWindow(ws: seq<World>, acts: seq<Action>, n: nat) returns (i: nat)
    requires IsRun(ws, acts) && n < |ws| && ws[n].reader.at.FinalSequence?
    ensures LastWindow(ws, acts, i, n)
  {
    hide Initial;
    NotFirst(ws, acts, n);
    var a := acts[n - 1];
    ReaderAlone(ws[n - 1], a);
    if Readers(a) {
      i := n - 1;
    } else {
      i := InWindow(ws, acts, n - 1);
    }
  }

  lemma NotFirst(ws: seq<World>, acts: seq<Action>, n: nat)
    requires IsRun(ws, acts) && n < |ws| && ws[n].reader.at.FinalSequence?
    ensures n > 0
  {
  }

  lemma ReaderAlone(w: World, a: Action)
    requires Enabled(w, a)
    ensures !Readers(a) ==> Apply(w, a).reader == w.reader
    ensures Readers(a) && Apply(w, a).reader.at.FinalSequence? ==> a.Step? && w.reader.at.FinalEpoch?
  {
  }

  /** Once the epoch has been confirmed: the sample is within its lease, or another sequence has been stored since. */
  predicate MovedOn(w: World) {
    w.reader.at.FinalSequence? && (w.mem.seqAt > w.reader.seqAt || WithinLease(w.reader))
  }

  lemma EpochConfirmed(w: World, ok: bool)
    requires ReaderOk(w) && NoWrap(w) && w.reader.at.FinalEpoch? && ReadStep(w, ok).reader.at.FinalSequence?
    ensures w.mem.epochAt == w.reader.epochAt && Even(w.mem.epochAt)
    ensures MovedOn(ReadStep(w, ok))
  {
    hide SequenceValue;
    EpochDistinct(w.reader.epochAt, w.mem.epochAt);
  }

  lemma MovedOnKept(w: World, a: Action)
    requires WriterOk(w) && Enabled(w, a) && MovedOn(w) && !Readers(a) && Onward(w, a)
    ensures MovedOn(Apply(w, a))
  {
    hide NextSequence, SequenceValue, PutByte, ReaderAfter, WithinLease, ZeroBank;
  }

  lemma {:induction false} WindowMovedOn(ws: seq<World>, acts: seq<Action>, i: nat, n: nat)
    requires IsRun(ws, acts) && Bounded(ws) && LastWindow(ws, acts, i, n)
    requires forall k :: i < k < n ==> Onward(ws[k], acts[k])
    ensures MovedOn(ws[n])
    decreases n
  {
    hide WriterOk, ReaderOk, NoWrap, MovedOn, Onward, Initial;
    RunOk(ws, acts, n - 1);
    assert Enabled(ws[n - 1], acts[n - 1]) && ws[n] == Apply(ws[n - 1], acts[n - 1]) && NoWrap(ws[n - 1]);
    hide Enabled, Apply;
    if n == i + 1 {
      StepApplied(ws[i], acts[i]);
      EpochConfirmed(ws[i], acts[i].clockOk);
    } else {
      WindowMovedOn(ws, acts, i, n - 1);
      assert Onward(ws[n - 1], acts[n - 1]);
      MovedOnKept(ws[n - 1], acts[n - 1]);
    }
  }

  lemma StepApplied(w: World, a: Action)
    requires Enabled(w, a) && a.Step?
    ensures Apply(w, a) == ReadStep(w, a.clockOk)
  {
  }

  lemma FinalLoad(w: World, ok: bool)
    requires NoWrap(w) && MovedOn(w) && ReaderOk(w) && ReadStep(w, ok).reader.at.Accepted?
    ensures WithinLease(ReadStep(w, ok).reader)
  {
    hide SequenceValue;
    if w.mem.seqAt > w.reader.seqAt { SequenceDistinct(w.reader.seqAt, w.mem.seqAt); }
  }

  /** Main result on the lease, read by read: an accepted sample is within its lease if no installation takes the
      stored sequence back between the read's last load of the epoch and its last load of the sequence. */
  lemma LeaseOfRead(ws: seq<World>, acts: seq<Action>, i: nat, n: nat)
    requires IsRun(ws, acts) && Bounded(ws) && LastWindow(ws, acts, i, n) && n < |acts|
    requires forall k :: i < k < n ==> Onward(ws[k], acts[k])
    requires ws[n + 1].reader.at.Accepted? && acts[n].Step?
    ensures WithinLease(ws[n + 1].reader)
  {
    hide Onward, SampleOk, WithinLease;
    WindowMovedOn(ws, acts, i, n);
    RunOk(ws, acts, n);
    assert Enabled(ws[n], acts[n]) && ws[n + 1] == Apply(ws[n], acts[n]) && NoWrap(ws[n]);
    hide Enabled, Apply, WriterOk, ReaderOk, NoWrap, MovedOn;
    StepApplied(ws[n], acts[n]);
    FinalLoad(ws[n], acts[n].clockOk);
  }

  // ---- exactly which late samples can be accepted --------------------------------------------

  /** The stored sequence is the one the bridge counts from, or the next; outside an installation so is the epoch. */
  predicate Counted(w: World) {
    && w.bridge.seqAt <= w.mem.seqAt <= w.bridge.seqAt + 1
    && (Even(w.mem.epochAt) ==> w.bridge.epochAt == w.mem.epochAt)
  }

  lemma CountedKept(w: World, a: Action)
    requires WriterOk(w) && Counted(w) && Enabled(w, a)
    ensures Counted(Apply(w, a))
  {
    hide NextSequence, SequenceValue, PutByte, ReaderAfter, ZeroBank, BankStable, ArgsArrived;
  }

  lemma {:induction false} RunCounted(ws: seq<World>, acts: seq<Action>, n: nat)
    requires IsRun(ws, acts) && Bounded(ws) && n < |ws|
    ensures Counted(ws[n])
  {
    hide WriterOk, ReaderOk, NoWrap, Enabled, Apply;
    if n > 0 {
      hide Counted;
      RunCounted(ws, acts, n - 1);
      RunOk(ws, acts, n - 1);
      CountedKept(ws[n - 1], acts[n - 1]);
    }
  }

  /** Steps of everybody but the reader, one after the other. */
  ghost predicate Window(us: seq<World>, acts: seq<Action>) {
    && |us| == |acts| + 1
    && forall k :: 0 <= k < |acts| ==> OthersStep(us[k], acts[k], us[k + 1])
  }

  ghost predicate OthersStep(v: World, a: Action, u: World) {
    !Readers(a) && Enabled(v, a) && u == Apply(v, a) && NoWrap(u)
  }

  ghost predicate Leads(w: World, v: World) {
    exists us, acts :: Window(us, acts) && us[0] == w && us[|acts|] == v
  }

  /** The others can act in such a way that the read in w is accepted. */
  ghost predicate MayAccept(w: World) { exists v :: Leads(w, v) && AcceptsAt(v) }

  predicate AcceptsAt(w: World) { w.reader.at.FinalSequence? && ReadStep(w, true).reader.at.Accepted? }

  predicate CountedOn(w: World) {
    w.reader.at.FinalSequence? && w.bridge.seqAt > w.reader.seqAt && w.mem.seqAt > w.reader.seqAt
  }

  lemma CountedOnKept(w: World, a: Action)
    requires Enabled(w, a) && CountedOn(w) && !Readers(a)
    ensures CountedOn(Apply(w, a))
  {
    hide NextSequence, SequenceValue, PutByte, ReaderAfter, ZeroBank;
  }

  lemma {:induction false} WindowCountedOn(us: seq<World>, acts: seq<Action>, n: nat)
    requires Window(us, acts) && CountedOn(us[0]) && NoWrap(us[0]) && n < |us|
    ensures CountedOn(us[n]) && NoWrap(us[n])
  {
    hide Enabled, Apply, NoWrap, CountedOn;
    if n > 0 {
      WindowCountedOn(us, acts, n - 1);
      assert OthersStep(us[n - 1], acts[n - 1], us[n]);
      CountedOnKept(us[n - 1], acts[n - 1]);
    }
  }

  lemma CountedOnRejects(w: World)
    requires CountedOn(w) && NoWrap(w) && w.reader.sequence == SequenceValue(w.reader.seqAt)
    ensures !AcceptsAt(w)
  {
    hide SequenceValue;
    if w.reader.sequence == SequenceValue(w.mem.seqAt) { SequenceDistinct(w.reader.seqAt, w.mem.seqAt); }
  }

  lemma {:induction false} WindowReader(us: seq<World>, acts: seq<Action>, n: nat)
    requires Window(us, acts) && n < |us|
    ensures us[n].reader == us[0].reader
  {
    hide Enabled, Apply, NoWrap;
    if n > 0 {
      WindowReader(us, acts, n - 1);
      assert OthersStep(us[n - 1], acts[n - 1], us[n]);
      ReaderAlone(us[n - 1], acts[n - 1]);
    }
  }

  lemma Here(w: World)
    ensures Leads(w, w)
  {
    var us, acts: seq<Action> := [w], [];
    assert Window(us, acts) && us[0] == w && us[|acts|] == w;
  }

  lemma Then(w: World, v: World, a: Action) returns (u: World)
    requires Leads(w, v) && Enabled(v, a) && !Readers(a) && NoWrap(Apply(v, a))
    ensures u == Apply(v, a) && Leads(w, u)
  {
    hide Enabled, Apply, NoWrap, Readers;
    u := Apply(v, a);
    var us, acts :| Window(us, acts) && us[0] == w && us[|acts|] == v;
    var vs, bs := us + [u], acts + [a];
    assert Window(vs, bs) by {
      forall k | 0 <= k < |bs| ensures OthersStep(vs[k], bs[k], vs[k + 1]) {
        if k < |acts| { assert vs[k] == us[k] && bs[k] == acts[k]; }
      }
    }
    assert vs[0] == w && vs[|bs|] == u;
  }

  /** The epoch the read holds still stands, and the bridge counts from the sequence the read loaded. */
  ghost predicate Behind(v: World) {
    && |v.mem.banks| == 2 && v.reader.at.FinalSequence? && v.mem.epochAt == v.reader.epochAt == v.bridge.epochAt
    && Even(v.mem.epochAt) && v.bridge.seqAt == v.reader.seqAt && v.mem.seqAt == v.bridge.seqAt + 1
    && v.reader.sequence == SequenceValue(v.reader.seqAt)
  }

  lemma GivesUp(w: World, v: World) returns (u: World)
    requires Leads(w, v) && Behind(v) && WriterOk(v)
    ensures Leads(w, u) && Behind(u) && (u.writer.Removing? || (u.writer.OddWrite? && u.writer.plan.odd == u.mem.epochAt + 1))
  {
    hide Leads, BankStable, SequenceValue, ZeroBank, ReaderAfter, PutByte;
    if v.writer.ActiveWrite? {
      u := Then(w, v, StoreActive(false, false));
    } else if v.writer.DeadlineWrite? {
      u := Then(w, v, StoreDeadline(false, false));
    } else if v.writer.Idle? {
      u := Then(w, v, BeginRemove);
    } else {
      u := v;
    }
  }

  lemma Removed(v: World)
    requires Behind(v) && v.writer.Removing?
    ensures var a := Remove(true, true, true); Enabled(v, a) && !Readers(a) && NoWrap(Apply(v, a)) && Behind(Apply(v, a))
    ensures var u := Apply(v, Remove(true, true, true)); u.writer.Idle? && u.bridge.stage.Reusable?
  {
    hide SequenceValue, ZeroBank, ReaderAfter, PutByte;
  }

  function NoHandles(): Handles { [0, 0, 0, 0] }

  lemma Begun(v: World)
    requires Behind(v) && v.writer.Idle? && v.bridge.stage.Reusable?
    ensures var a := BeginInstall(1, NoHandles()); Enabled(v, a) && !Readers(a) && NoWrap(Apply(v, a)) && Behind(Apply(v, a))
    ensures var u := Apply(v, BeginInstall(1, NoHandles())); u.writer.OddWrite? && u.writer.plan.odd == u.mem.epochAt + 1
  {
    hide SequenceValue, ZeroBank, ReaderAfter, PutByte;
  }

  lemma Reinstalls(w: World, v: World) returns (u: World)
    requires Leads(w, v) && Behind(v) && v.writer.Removing?
    ensures Leads(w, u) && Behind(u) && u.writer.OddWrite? && u.writer.plan.odd == u.mem.epochAt + 1
  {
    hide *;
    Removed(v);
    u := Then(w, v, Remove(true, true, true));
    Begun(u);
    u := Then(w, u, BeginInstall(1, NoHandles()));
  }

  /** The odd epoch is stored, and nothing else has changed. */
  ghost predicate Opened(v: World) {
    && |v.mem.banks| == 2 && v.reader.at.FinalSequence? && v.mem.epochAt == v.reader.epochAt + 1 && v.writer.ArgsWrite?
    && v.bridge.seqAt == v.reader.seqAt && v.mem.seqAt == v.bridge.seqAt + 1
    && v.reader.sequence == SequenceValue(v.reader.seqAt)
  }

  lemma OddStored(v: World)
    requires Behind(v) && v.writer.OddWrite? && v.writer.plan.odd == v.mem.epochAt + 1
    ensures var a := StoreOdd(true, true); Enabled(v, a) && !Readers(a) && NoWrap(Apply(v, a)) && Opened(Apply(v, a))
  {
    hide SequenceValue, ZeroBank, ReaderAfter, PutByte;
  }

  lemma TakenBack(v: World)
    requires Opened(v)
    ensures Enabled(v, ResetSequence) && NoWrap(Apply(v, ResetSequence)) && AcceptsAt(Apply(v, ResetSequence))
  {
    hide SequenceValue, ZeroBank, PutByte;
  }

  lemma StoresBack(w: World, v: World)
    requires Leads(w, v) && Behind(v) && v.writer.OddWrite? && v.writer.plan.odd == v.mem.epochAt + 1
    ensures MayAccept(w)
  {
    hide Leads, Behind, Opened, Enabled, Apply, NoWrap, AcceptsAt;
    OddStored(v);
    var u := Then(w, v, StoreOdd(true, true));
    TakenBack(u);
    u := Then(w, u, ResetSequence);
  }

  /** A bridge that is one behind what is stored can give up, reinstall and store its own sequence again. */
  lemma TakeBack(w: World)
    requires WriterOk(w) && Behind(w)
    ensures MayAccept(w)
  {
    hide *;
    Here(w);
    var v := GivesUp(w, w);
    if v.writer.Removing? { v := Reinstalls(w, v); }
    StoresBack(w, v);
  }

  lemma SameSequence(v: World)
    requires v.reader.at.FinalSequence? && v.reader.sequence == SequenceValue(v.mem.seqAt)
    ensures AcceptsAt(v)
  {
  }

  lemma NoneAccepts(w: World)
    requires CountedOn(w) && NoWrap(w) && w.reader.sequence == SequenceValue(w.reader.seqAt)
    ensures !MayAccept(w)
  {
    hide Window, CountedOn, NoWrap, AcceptsAt, SequenceValue;
    if v :| Leads(w, v) && AcceptsAt(v) {
      var us, acts := Between(w, v);
      WindowCountedOn(us, acts, |acts|);
      WindowReader(us, acts, |acts|);
      CountedOnRejects(v);
    }
  }

  lemma Between(w: World, v: World) returns (us: seq<World>, acts: seq<Action>)
    requires Leads(w, v)
    ensures Window(us, acts) && |us| == |acts| + 1 && us[0] == w && us[|acts|] == v
  {
    us, acts :| Window(us, acts) && us[0] == w && us[|acts|] == v;
  }

  /** The exact condition: a sample that is already past its lease when the epoch is loaded for the last time can
      still be accepted if and only if the bridge counts from the very sequence the read loaded, that is, if the
      newer one in memory is from a publication the bridge has not completed. */
  lemma LateAcceptedIff(ws: seq<World>, acts: seq<Action>, i: nat)
    requires IsRun(ws, acts) && Bounded(ws) && LastWindow(ws, acts, i, i + 1) && !WithinLease(ws[i + 1].reader)
    ensures MayAccept(ws[i + 1]) <==> ws[i + 1].bridge.seqAt == ws[i + 1].reader.seqAt
  {
    hide WithinLease, MayAccept, Initial;
    var w, v := ws[i], ws[i + 1];
    RunOk(ws, acts, i);
    RunOk(ws, acts, i + 1);
    RunCounted(ws, acts, i + 1);
    assert NoWrap(w) && NoWrap(v) && v == Apply(w, acts[i]);
    hide IsRun, Bounded, Enabled, Apply, NoWrap, WriterOk;
    StepApplied(w, acts[i]);
    EpochConfirmed(w, acts[i].clockOk);
    EpochLoadMoves(w, acts[i].clockOk);
    hide ReadStep;
    if v.bridge.seqAt == v.reader.seqAt { TakeBack(v); } else { NoneAccepts(v); }
  }

  lemma EpochLoadMoves(w: World, ok: bool)
    requires ReaderOk(w) && w.reader.at.FinalEpoch? && ReadStep(w, ok).reader.at.FinalSequence?
    ensures ReadStep(w, ok).mem == w.mem && ReadStep(w, ok).bridge == w.bridge
    ensures ReadStep(w, ok).reader == w.reader.(at := FinalSequence)
    ensures w.reader.sequence == SequenceValue(w.reader.seqAt)
  {
  }

  // ---- a run that outlives its lease ---------------------------------------------------------

  ghost predicate Reachable(w: World) {
    exists ws, acts :: IsRun(ws, acts) && Bounded(ws) && ws[|acts|] == w
  }

  lemma Go(w: World, a: Action) returns (v: World)
    requires Reachable(w) && Enabled(w, a) && NoWrap(Apply(w, a))
    ensures v == Apply(w, a) && Reachable(v)
  {
    hide Enabled, Apply, NoWrap, Initial;
    v := Apply(w, a);
    var ws, acts :| IsRun(ws, acts) && Bounded(ws) && ws[|acts|] == w;
    var us, bs := ws + [v], acts + [a];
    assert forall i :: 0 <= i < |bs| ==> Enabled(us[i], bs[i]) && us[i + 1] == Apply(us[i], bs[i]) by {
      forall i | 0 <= i < |bs| ensures Enabled(us[i], bs[i]) && us[i + 1] == Apply(us[i], bs[i]) {
        if i < |acts| { assert us[i] == ws[i] && bs[i] == acts[i]; }
      }
    }
    assert IsRun(us, bs);
    assert Bounded(us);
  }

  function Held7(): Handles { [7, 0, 0, 0] }

  function Pad7(): Pad { ZeroPad()[CONNECTED := 1] }

  function Bank7(): Bank { [Pad7(), ZeroPad(), ZeroPad(), ZeroPad()] }

  lemma PutPad7(banks: seq<Bank>, side: nat)
    requires |banks| == 2 && side < 2 && banks[side] == ZeroBank()
    ensures PutByte(banks, side, 0, CONNECTED, 1) == banks[side := Bank7()]
  {
    assert ZeroBank()[0 := Pad7()] == Bank7();
  }

  /** The route for handle 7 is installed and nothing is published yet. */
  lemma Installed() returns (w: World)
    ensures Reachable(w) && w.reader.at.Off? && w.writer.Idle? && w.clock == 0
    ensures w.mem == Shared(false, 0, 2, 1, Held7(), [ZeroBank(), ZeroBank()], 0)
    ensures w.bridge == Bridge(Live, 0, 2, 1, Held7())
  {
    hide ZeroBank, PutByte, ReaderAfter, IsRun, Bounded;
    var mem := Shared(false, 0, 0, 0, [0, 0, 0, 0], [ZeroBank(), ZeroBank()], 0);
    var reader := Reader(Off, 0, 0, 0, 0, 0, 0, 0, 0, -1, [], 0, 0, None);
    w := World(mem, Bridge(Empty, 0, 0, 0, [0, 0, 0, 0]), Idle, reader, 0, None, {});
    Begin(w);
    w := Go(w, BeginInstall(1, Held7()));
    w := Go(w, StoreOdd(true, true));
    w := Go(w, StoreCount);
    w := Go(w, StoreHandle(0));
    w := Go(w, ArgsDone(true));
    w := Go(w, StoreEven(true, true));
    w := Go(w, HooksDone(true));
  }

  lemma Begin(w: World)
    requires Initial(w)
    ensures Reachable(w)
  {
    var ws, acts: seq<Action> := [w], [];
    assert IsRun(ws, acts) && Bounded(ws) && ws[|acts|] == w;
  }

  /** A first pad is live. */
  lemma Live7() returns (w: World)
    ensures Reachable(w) && w.reader.at.Off? && w.writer.Idle? && w.clock == 0 && w.bridge == Bridge(Live, 1, 2, 1, Held7())
    ensures w.mem == Shared(true, 1, 2, 1, Held7(), [ZeroBank(), Bank7()], LEASE)
    ensures w.current == Some(Publication(Bank7(), 1, Held7(), 0, 1, 2))
  {
    hide ZeroBank, PutByte, Bank7, IsRun, Bounded, ReaderAfter, StartRead;
    w := Installed();
    w := Go(w, BeginPublish(Bank7()));
    BankByte();
    PutPad7(w.mem.banks, 1);
    w := Go(w, StoreByte(0, CONNECTED));
    w := Go(w, BankDone(true));
    w := Go(w, StoreSequence(true, true));
    w := Go(w, StoreDeadline(true, true));
    w := Go(w, StoreActive(true, true));
  }

  /** A reader has found its route and is about to copy. */
  lemma Routed7() returns (w: World)
    ensures Reachable(w) && w.writer.Idle? && w.clock == 0 && w.bridge == Bridge(Live, 1, 2, 1, Held7())
    ensures w.mem == Shared(true, 1, 2, 1, Held7(), [ZeroBank(), Bank7()], LEASE)
    ensures w.current == Some(Publication(Bank7(), 1, Held7(), 0, 1, 2))
    ensures w.reader == Reader(Copy, 7, 0, 2, 1, 2, 1, 1, 1, 0, [], 0, 0, None)
  {
    hide ZeroBank, PutByte, Bank7, IsRun, Bounded, Reachable;
    w := Live7();
    w := Go(w, Start(7));
    w := Go(w, Step(true));
    w := Go(w, Step(true));
    w := Go(w, Step(true));
    w := Go(w, Step(true));
    w := Go(w, Step(true));
  }

  lemma BankByte()
    ensures Bank7()[0][CONNECTED] == 1
  {
  }

  lemma {:induction false} CopyAll(w: World) returns (v: World)
    requires Reachable(w) && w.reader.at.Copy? && |w.reader.dst| <= PAD_SIZE && |w.mem.banks| == 2 && w.mem.active
    requires w.reader.sequence == w.reader.seqAt == w.mem.seqAt == 1 && w.reader.route == 0
    requires w.reader.epochAt == w.mem.epochAt
    requires w.reader.dst == w.mem.banks[1][0][..|w.reader.dst|]
    ensures Reachable(v) && v == w.(reader := w.reader.(at := CheckSequence, dst := w.mem.banks[1][0]))
    decreases PAD_SIZE - |w.reader.dst|
  {
    hide Reachable;
    var u := Go(w, Step(true));
    if |w.reader.dst| < PAD_SIZE {
      v := CopyAll(u);
    } else {
      v := u;
    }
  }

  /** The reader has confirmed the first pad; then its lease runs out. */
  lemma Confirmed7() returns (w: World)
    ensures Reachable(w) && w.writer.Idle? && w.clock == LEASE && w.bridge == Bridge(Live, 1, 2, 1, Held7())
    ensures w.mem == Shared(true, 1, 2, 1, Held7(), [ZeroBank(), Bank7()], LEASE)
    ensures w.reader.at.LoadDeadline? && w.reader.sequence == w.reader.seqAt == 1 && w.reader.epoch == w.reader.epochAt == 2
    ensures w.reader.sample == Some(Publication(Bank7(), 1, Held7(), 0, 1, 2))
  {
    hide ZeroBank, PutByte, Bank7, IsRun, Bounded, Reachable;
    w := Routed7();
    w := CopyAll(w);
    w := Go(w, Step(true));
    BankByte();
    w := Go(w, Step(true));
    w := Go(w, Tick(LEASE));
  }

  /** A second publication has stored its deadline and is about to fail. */
  lemma Failing() returns (w: World)
    ensures Reachable(w) && w.writer.ActiveWrite? && w.clock == LEASE && w.bridge == Bridge(Live, 1, 2, 1, Held7())
    ensures w.mem == Shared(true, 2, 2, 1, Held7(), [Bank7(), Bank7()], 2 * LEASE)
    ensures w.reader.at.LoadDeadline? && w.reader.sequence == w.reader.seqAt == 1 && w.reader.epoch == w.reader.epochAt == 2
    ensures w.reader.sample == Some(Publication(Bank7(), 1, Held7(), 0, 1, 2))
  {
    hide ZeroBank, PutByte, Bank7, IsRun, Bounded, Reachable, ReaderAfter;
    w := Confirmed7();
    w := Go(w, BeginPublish(Bank7()));
    BankByte();
    PutPad7(w.mem.banks, 0);
    w := Go(w, StoreByte(0, CONNECTED));
    w := Go(w, BankDone(true));
    w := Go(w, StoreSequence(true, true));
    w := Go(w, StoreDeadline(true, true));
  }

  /** The reader takes that deadline for its own and finds the epoch unchanged. */
  lemma DeadlineTaken() returns (w: World)
    ensures Reachable(w) && w.writer.Removing? && w.bridge.seqAt == 1 && w.bridge.epochAt == 2
    ensures w.mem.epochAt == 2 && |w.mem.banks| == 2 && w.mem.seqAt == 2
    ensures w.reader.at.FinalEpoch? && w.reader.sequence == w.reader.seqAt == 1 && w.reader.epochAt == w.reader.epoch == 2
    ensures w.reader.now == LEASE && w.reader.sample.Some? && w.reader.sample.value.clock == 0
  {
    hide ZeroBank, PutByte, Bank7, IsRun, Bounded, Reachable;
    w := Failing();
    w := Go(w, StoreActive(false, false));
    w := Go(w, Step(true));
    w := Go(w, Step(true));
    w := Go(w, Step(true));
  }

  /** The lease can be missed: from a reachable read whose sample is as old as the lease, an installation that falls
      between its last two loads stores the sequence of the failed publication's predecessor, and it is accepted. */
  lemma LeaseCanBeMissed() returns (w: World, us: seq<World>, acts: seq<Action>)
    ensures Reachable(w) && w.reader.at.FinalEpoch? && Window(us, acts) && us[0] == ReadStep(w, true)
    ensures acts == [Remove(true, true, true), BeginInstall(1, Held7()), StoreOdd(true, true), ResetSequence]
    ensures !Onward(us[3], acts[3]) && AcceptsAt(us[4]) && !WithinLease(us[4].reader)
  {
    hide Reachable, ZeroBank, Window, AcceptsAt, OthersStep, ReadStep;
    w := DeadlineTaken();
    var a := EpochStands(w);
    var b := Removes(a);
    var c := Begins(b);
    var d := Opens(c);
    var e := Resets(d);
    SameSequence(e);
    us, acts := [a, b, c, d, e], [Remove(true, true, true), BeginInstall(1, Held7()), StoreOdd(true, true), ResetSequence];
    WindowOfFour(us, acts);
  }

  lemma EpochStands(w: World) returns (a: World)
    requires w.reader.at.FinalEpoch? && w.reader.epoch == w.mem.epochAt == 2
    ensures a == ReadStep(w, true) == w.(reader := w.reader.(at := FinalSequence))
  {
    a := ReadStep(w, true);
  }

  /** The read and the memory of the example while its window lasts. */
  ghost predicate Late7(v: World, seqAt: nat) {
    && |v.mem.banks| == 2 && v.mem.seqAt == seqAt && v.bridge.seqAt == 1 && v.bridge.epochAt == 2
    && v.reader.at.FinalSequence? && v.reader.sequence == v.reader.seqAt == 1 && v.reader.epochAt == 2
    && v.reader.now == LEASE && v.reader.sample.Some? && v.reader.sample.value.clock == 0
  }

  lemma Removes(v: World) returns (u: World)
    requires Late7(v, 2) && v.mem.epochAt == 2 && v.writer.Removing?
    ensures OthersStep(v, Remove(true, true, true), u)
    ensures Late7(u, 2) && u.mem.epochAt == 2 && u.writer.Idle? && u.bridge.stage.Reusable?
  {
    u := Apply(v, Remove(true, true, true));
  }

  lemma Begins(v: World) returns (u: World)
    requires Late7(v, 2) && v.mem.epochAt == 2 && v.writer.Idle? && v.bridge.stage.Reusable?
    ensures OthersStep(v, BeginInstall(1, Held7()), u)
    ensures Late7(u, 2) && u.mem.epochAt == 2 && u.writer.OddWrite? && u.writer.plan.odd == 3
  {
    u := Apply(v, BeginInstall(1, Held7()));
  }

  lemma Opens(v: World) returns (u: World)
    requires Late7(v, 2) && v.mem.epochAt == 2 && v.writer.OddWrite? && v.writer.plan.odd == 3
    ensures OthersStep(v, StoreOdd(true, true), u)
    ensures Late7(u, 2) && u.mem.epochAt == 3 && u.writer.ArgsWrite?
  {
    u := Apply(v, StoreOdd(true, true));
  }

  lemma Resets(v: World) returns (u: World)
    requires Late7(v, 2) && v.mem.epochAt == 3 && v.writer.ArgsWrite?
    ensures OthersStep(v, ResetSequence, u) && Late7(u, 1)
  {
    u := Apply(v, ResetSequence);
  }

  lemma WindowOfFour(us: seq<World>, acts: seq<Action>)
    requires |us| == 5 && |acts| == 4 && OthersStep(us[0], acts[0], us[1]) && OthersStep(us[1], acts[1], us[2])
    requires OthersStep(us[2], acts[2], us[3]) && OthersStep(us[3], acts[3], us[4])
    ensures Window(us, acts)
  {
    hide OthersStep;
  }
}
