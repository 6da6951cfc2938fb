/** That the sequence lock delivers: what an undisturbed read gives, and that a publication which nothing disturbs can
    be read. The safety of disturbed reads is in `SeqLock`. */
module Reads {
  import opened SeqLock
  import opened Wrappers

  // ---- the reader on its own -----------------------------------------------------------------

  /** n steps of the reader while nobody else moves. */
  function Alone(w: World, n: nat): World {
    if n == 0 then w else ReadStep(Alone(w, n - 1), true)
  }

  ghost predicate ReadsTo(w: World, v: World) { exists n: nat :: Alone(w, n) == v }

  lemma NoStep(w: World)
    ensures ReadsTo(w, w)
  {
    assert Alone(w, 0) == w;
  }

  lemma OneStep(w: World, v: World) returns (u: World)
    requires ReadsTo(w, v)
    ensures u == ReadStep(v, true) && ReadsTo(w, u)
  {
    hide ReadStep;
    u := ReadStep(v, true);
    var n: nat :| Alone(w, n) == v;
    assert Alone(w, n + 1) == u;
  }

  /** Slot k, and no other, holds the handle; its pad is connected, and the lease of what is published has not run out. */
  ghost predicate Readable(m: Shared, clock: nat, handle: int, k: nat) {
    && m.active && Even(m.epochAt) && k < m.count <= ROUTES && OnlyRoute(m.handles, handle, k, m.count)
    && |m.banks| == 2 && m.banks[m.seqAt % 2][k][CONNECTED] != 0 && clock < m.deadline
  }

  /** Loaded and still so. */
  predicate Fresh(r: Reader, m: Shared) {
    && r.epochAt == m.epochAt && r.epoch == m.epochAt % WRAP && r.seqAt == m.seqAt && r.sequence == SequenceValue(m.seqAt)
  }

  /** Between two retries an odd epoch stays odd. */
  lemma {:induction false} OddRead(w: World, v: World) returns (u: World)
    requires ReadsTo(w, v) && v.reader.at.LoadEpoch? && v.reader.attempt < 3 && !Even(v.mem.epochAt)
    ensures ReadsTo(w, u) && u.reader.at.Rejected? && u.mem == v.mem
    decreases 3 - v.reader.attempt
  {
    hide ReadsTo, SequenceValue;
    u := OneStep(w, v);
    u := OneStep(w, u);
    if u.reader.at.LoadEpoch? { u := OddRead(w, u); }
  }

  /** The loads before the scan. */
  lemma EarlyRead(w: World, v: World) returns (u: World)
    requires ReadsTo(w, v) && v.reader.at.LoadEpoch? && Even(v.mem.epochAt)
    ensures ReadsTo(w, u) && u.mem == v.mem && u.clock == v.clock && u.reader.handle == v.reader.handle
    ensures if v.mem.count > ROUTES then u.reader.at.Rejected?
            else u.reader.at.Scan? && Fresh(u.reader, u.mem) && u.reader.count == u.mem.count && u.reader.slot == 0 && u.reader.route == -1
  {
    hide ReadsTo, SequenceValue;
    u := OneStep(w, v);
    u := OneStep(w, u);
    u := OneStep(w, u);
  }

  /** The scan finds the only slot with the handle, or gives up. */
  lemma {:induction false} ScanRead(w: World, v: World) returns (u: World)
    requires ReadsTo(w, v) && v.reader.at.Scan? && Fresh(v.reader, v.mem) && v.reader.count == v.mem.count <= ROUTES
    requires v.reader.slot <= v.mem.count && OnlyRoute(v.mem.handles, v.reader.handle, v.reader.route, v.reader.slot)
    ensures ReadsTo(w, u) && u.mem == v.mem && u.clock == v.clock
    ensures || u.reader.at.Rejected?
            || (u.reader.at.Copy? && Fresh(u.reader, u.mem) && u.reader.dst == []
                && 0 <= u.reader.route && OnlyRoute(u.mem.handles, v.reader.handle, u.reader.route, u.mem.count))
    ensures u.reader.at.Rejected? ==>
      forall k :: 0 <= k < v.mem.count ==> !OnlyRoute(v.mem.handles, v.reader.handle, k, v.mem.count)
    decreases v.mem.count - v.reader.slot
  {
    hide ReadsTo, SequenceValue;
    u := OneStep(w, v);
    if v.reader.slot < v.mem.count && u.reader.at.Scan? { u := ScanRead(w, u); }
  }

  /** Byte after byte. */
  lemma {:induction false} CopyRead(w: World, v: World) returns (u: World)
    requires ReadsTo(w, v) && v.reader.at.Copy? && Fresh(v.reader, v.mem) && |v.mem.banks| == 2 && 0 <= v.reader.route < ROUTES
    requires |v.reader.dst| <= PAD_SIZE && v.reader.dst == v.mem.banks[v.mem.seqAt % 2][v.reader.route][..|v.reader.dst|]
    ensures ReadsTo(w, u)
    ensures u == v.(reader := v.reader.(at := CheckSequence, dst := v.mem.banks[v.mem.seqAt % 2][v.reader.route]))
    decreases PAD_SIZE - |v.reader.dst|
  {
    hide ReadsTo, SequenceValue;
    BankAlternates(v.mem.seqAt);
    u := OneStep(w, v);
    if |v.reader.dst| < PAD_SIZE { u := CopyRead(w, u); }
  }

  /** The checks after the copy. */
  lemma LateRead(w: World, v: World) returns (u: World)
    requires ReadsTo(w, v) && v.reader.at.CheckSequence? && Fresh(v.reader, v.mem) && |v.reader.dst| == PAD_SIZE
    ensures ReadsTo(w, u) && u.reader.dst == v.reader.dst && (u.reader.at.Accepted? || u.reader.at.Rejected?)
    ensures u.reader.at.Accepted? <==> v.reader.dst[CONNECTED] != 0 && v.clock < v.mem.deadline && v.mem.active
    ensures v.clock < v.mem.deadline ==> u.mem == v.mem
  {
    hide ReadsTo, SequenceValue;
    u := OneStep(w, v);
    u := OneStep(w, u);
    if v.reader.dst[CONNECTED] != 0 {
      u := OneStep(w, u);
      u := OneStep(w, u);
      u := OneStep(w, u);
      if v.clock < v.mem.deadline && v.mem.active {
        u := OneStep(w, u);
        u := OneStep(w, u);
      }
    }
  }

  lemma OneOnly(handles: Handles, handle: int, j: nat, k: nat, upto: nat)
    requires OnlyRoute(handles, handle, j, upto) && OnlyRoute(handles, handle, k, upto)
    ensures j == k
  {
  }

  /** One attempt, undisturbed. */
  lemma OneAttempt(w: World, v: World) returns (u: World)
    requires ReadsTo(w, v) && v.reader.at.LoadEpoch? && v.reader.attempt < 3 && |v.mem.banks| == 2 && v.mem.active
    ensures ReadsTo(w, u) && (u.reader.at.Accepted? || u.reader.at.Rejected?)
    ensures u.reader.at.Accepted? <==> exists k: nat :: Readable(v.mem, v.clock, v.reader.handle, k)
    ensures forall k: nat :: Readable(v.mem, v.clock, v.reader.handle, k) ==> u.reader.dst == v.mem.banks[v.mem.seqAt % 2][k]
  {
    hide ReadStep, ReadsTo, Even, OnlyRoute, SequenceValue;
    var m, handle := v.mem, v.reader.handle;
    if !Even(m.epochAt) {
      u := OddRead(w, v);
    } else {
      u := EarlyRead(w, v);
      NoneYet(m.handles, handle);
      if m.count <= ROUTES {
        u := ScanRead(w, u);
        if u.reader.at.Copy? {
          var k := u.reader.route;
          RouteBound(m.handles, handle, k, m.count);
          u := CopyRead(w, u);
          u := LateRead(w, u);
          forall j: nat | Readable(m, v.clock, handle, j) ensures j == k { OneOnly(m.handles, handle, j, k, m.count); }
          assert u.reader.at.Accepted? ==> Readable(m, v.clock, handle, k);
        }
      }
    }
  }

  /** Main result: a read that nothing disturbs ends, and it is accepted exactly when some slot is readable; then it has
      that slot's pad, byte for byte. */
  lemma UndisturbedRead(w: World, handle: int) returns (v: World)
    requires |w.mem.banks| == 2
    ensures ReadsTo(StartRead(w, handle), v) && (v.reader.at.Accepted? || v.reader.at.Rejected?)
    ensures v.reader.at.Accepted? <==> exists k: nat :: Readable(w.mem, w.clock, handle, k)
    ensures forall k: nat :: Readable(w.mem, w.clock, handle, k) ==> v.reader.dst == w.mem.banks[w.mem.seqAt % 2][k]
  {
    hide ReadStep, ReadsTo, Even, OnlyRoute;
    v := StartRead(w, handle);
    NoStep(v);
    if w.mem.active { v := OneAttempt(v, v); }
  }

  /** The read has just found that what it loaded has moved on. */
  predicate Overtaken(v: World) {
    var r, m := v.reader, v.mem;
    || (r.at.LoadSequence? && r.epoch % 2 == 1) || (r.at.CheckSequence? && r.sequence != SequenceValue(m.seqAt))
    || (r.at.CheckEpoch? && r.epoch != m.epochAt % WRAP) || (r.at.RecheckDeadline? && r.deadline != m.deadline)
  }

  /** A read that was overtaken, once or twice, starts again and has the same outcome if nothing disturbs it any more. */
  lemma RetriedRead(v: World) returns (u: World)
    requires |v.mem.banks| == 2 && Overtaken(v) && v.reader.attempt < 2 && v.mem.active
    ensures ReadsTo(v, u) && (u.reader.at.Accepted? || u.reader.at.Rejected?)
    ensures u.reader.at.Accepted? <==> exists k: nat :: Readable(v.mem, v.clock, v.reader.handle, k)
    ensures forall k: nat :: Readable(v.mem, v.clock, v.reader.handle, k) ==> u.reader.dst == v.mem.banks[v.mem.seqAt % 2][k]
  {
    hide ReadsTo, Even, OnlyRoute, SequenceValue;
    NoStep(v);
    u := OneStep(v, v);
    u := OneAttempt(v, u);
  }

  lemma NoneYet(handles: Handles, handle: int)
    ensures OnlyRoute(handles, handle, -1, 0)
  {
  }

  lemma RouteBound(handles: Handles, handle: int, k: int, upto: nat)
    requires OnlyRoute(handles, handle, k, upto)
    ensures k < upto <= ROUTES
  {
  }

  // ---- the writer on its own -----------------------------------------------------------------

  /** No read is under way. */
  predicate Resting(w: World) { w.reader.at.Off? || w.reader.at.Rejected? || w.reader.at.Accepted? }

  lemma RestsOn(w: World, a: Action)
    requires Resting(w) && Enabled(w, a) && !Readers(a)
    ensures NoWrap(Apply(w, a)) && Apply(w, a).reader == w.reader
  {
    hide NextSequence, SequenceValue, PutByte, ReaderAfter, ZeroBank;
  }

  lemma Goes(w: World, v: World, a: Action) returns (u: World)
    requires Leads(w, v) && Resting(v) && Enabled(v, a) && !Readers(a)
    ensures u == Apply(v, a) && Leads(w, u) && Resting(u)
  {
    hide Leads, Enabled, Apply, NoWrap;
    RestsOn(v, a);
    u := Then(w, v, a);
  }

  function SetPad(banks: seq<Bank>, side: nat, route: nat, pad: Pad): (r: seq<Bank>)
    requires |banks| == 2 && side < 2 && route < ROUTES
    ensures |r| == 2
  {
    var b: Bank := banks[side][route := pad];
    banks[side := b]
  }

  /** One more byte of a pad, on the way to the whole pad. */
  lemma PutMore(banks: seq<Bank>, side: nat, route: nat, pad: Pad, i: nat)
    requires |banks| == 2 && side < 2 && route < ROUTES && i < PAD_SIZE && banks[side][route][..i] == pad[..i]
    ensures var next := PutByte(banks, side, route, i, pad[i]);
      next[side][route][..i + 1] == pad[..i + 1] && SetPad(next, side, route, pad) == SetPad(banks, side, route, pad)
  {
    var next := PutByte(banks, side, route, i, pad[i]);
    assert next[side][route][..i] == banks[side][route][..i];
    assert next[side][route := pad] == banks[side][route := pad];
  }

  lemma PutWhole(banks: seq<Bank>, side: nat, route: nat, pad: Pad)
    requires |banks| == 2 && side < 2 && route < ROUTES && banks[side][route][..PAD_SIZE] == pad[..PAD_SIZE]
    ensures SetPad(banks, side, route, pad) == banks
  {
    assert banks[side][route] == pad;
    assert banks[side][route := pad] == banks[side];
  }

  lemma {:induction false} StorePad(w: World, v: World, route: nat, i: nat) returns (u: World)
    requires Leads(w, v) && Resting(v) && v.writer.BankWrite? && |v.mem.banks| == 2 && route < ROUTES && i <= PAD_SIZE
    requires v.mem.banks[(v.bridge.seqAt + 1) % 2][route][..i] == v.writer.pub.bank[route][..i]
    ensures Leads(w, u) && Resting(u)
    ensures u == v.(mem := v.mem.(banks := SetPad(v.mem.banks, (v.bridge.seqAt + 1) % 2, route, v.writer.pub.bank[route])))
    decreases PAD_SIZE - i
  {
    hide Leads, Resting, PutByte, SetPad;
    var side, pad := (v.bridge.seqAt + 1) % 2, v.writer.pub.bank[route];
    if i == PAD_SIZE {
      u := v;
      PutWhole(v.mem.banks, side, route, pad);
    } else {
      u := Goes(w, v, StoreByte(route, i));
      PutMore(v.mem.banks, side, route, pad, i);
      u := StorePad(w, u, route, i + 1);
    }
  }

  lemma {:induction false} ClearPad(w: World, v: World, side: nat, route: nat, i: nat) returns (u: World)
    requires Leads(w, v) && Resting(v) && v.writer.ArgsWrite? && |v.mem.banks| == 2 && side < 2 && route < ROUTES && i <= PAD_SIZE
    requires v.mem.banks[side][route][..i] == ZeroPad()[..i]
    ensures Leads(w, u) && Resting(u) && u == v.(mem := v.mem.(banks := SetPad(v.mem.banks, side, route, ZeroPad())))
    decreases PAD_SIZE - i
  {
    hide Leads, Resting, PutByte, SetPad;
    if i == PAD_SIZE {
      u := v;
      PutWhole(v.mem.banks, side, route, ZeroPad());
    } else {
      u := Goes(w, v, ZeroByte(side, route, i));
      PutMore(v.mem.banks, side, route, ZeroPad(), i);
      u := ClearPad(w, u, side, route, i + 1);
    }
  }

  lemma FourPads(banks: seq<Bank>, side: nat, bank: Bank)
    requires |banks| == 2 && side < 2
    ensures var a := SetPad(SetPad(banks, side, 0, bank[0]), side, 1, bank[1]);
      SetPad(SetPad(a, side, 2, bank[2]), side, 3, bank[3]) == banks[side := bank]
  {
    var a := SetPad(SetPad(banks, side, 0, bank[0]), side, 1, bank[1]);
    var b := SetPad(SetPad(a, side, 2, bank[2]), side, 3, bank[3]);
    assert b[side] == bank;
  }

  /** What is in memory once a bank is published on top of m. */
  function PublishedOn(m: Shared, bank: Bank, clock: nat): Shared
    requires |m.banks| == 2
  {
    m.(active := true, seqAt := m.seqAt + 1, banks := m.banks[(m.seqAt + 1) % 2 := bank], deadline := clock + LEASE)
  }

  lemma StoreBank(w: World, v: World) returns (u: World)
    requires Leads(w, v) && Resting(v) && v.writer.BankWrite? && |v.mem.banks| == 2
    ensures Leads(w, u) && Resting(u)
    ensures u == v.(mem := v.mem.(banks := v.mem.banks[(v.bridge.seqAt + 1) % 2 := v.writer.pub.bank]))
  {
    hide Leads, Resting, SetPad, PutByte;
    FourPads(v.mem.banks, (v.bridge.seqAt + 1) % 2, v.writer.pub.bank);
    u := StorePad(w, v, 0, 0);
    u := StorePad(w, u, 1, 0);
    u := StorePad(w, u, 2, 0);
    u := StorePad(w, u, 3, 0);
  }

  lemma StoresPublished(w: World, v: World) returns (u: World)
    requires Leads(w, v) && Resting(v) && v.writer.SequenceWrite? && |v.mem.banks| == 2
    ensures Leads(w, u) && Resting(u) && u.writer.Idle? && u.bridge == v.bridge.(seqAt := v.bridge.seqAt + 1)
    ensures u.mem == v.mem.(active := true, seqAt := v.bridge.seqAt + 1, deadline := v.writer.pub.clock + LEASE) && u.clock == v.clock
  {
    hide Leads, Resting, Enabled, Apply;
    SequenceStored(v);
    u := Goes(w, v, StoreSequence(true, true));
    DeadlineStored(u);
    u := Goes(w, u, StoreDeadline(true, true));
    ActiveStored(u);
    u := Goes(w, u, StoreActive(true, true));
  }

  lemma SequenceStored(v: World)
    requires v.writer.SequenceWrite? && |v.mem.banks| == 2
    ensures Enabled(v, StoreSequence(true, true))
    ensures var u := Apply(v, StoreSequence(true, true));
      u.mem == v.mem.(seqAt := v.bridge.seqAt + 1) && u.bridge == v.bridge && u.clock == v.clock && u.writer == DeadlineWrite(v.writer.pub)
  {
    hide ReadStep, StartRead;
  }

  lemma DeadlineStored(v: World)
    requires v.writer.DeadlineWrite? && |v.mem.banks| == 2
    ensures Enabled(v, StoreDeadline(true, true))
    ensures var u := Apply(v, StoreDeadline(true, true));
      && u.mem == v.mem.(deadline := v.writer.pub.clock + LEASE) && u.bridge == v.bridge && u.clock == v.clock
      && u.writer == ActiveWrite(v.writer.pub)
  {
    hide ReadStep, StartRead;
  }

  lemma ActiveStored(v: World)
    requires v.writer.ActiveWrite? && |v.mem.banks| == 2
    ensures Enabled(v, StoreActive(true, true))
    ensures var u := Apply(v, StoreActive(true, true));
      u.mem == v.mem.(active := true) && u.bridge == v.bridge.(seqAt := v.bridge.seqAt + 1) && u.clock == v.clock && u.writer.Idle?
  {
    hide ReadStep, StartRead;
  }

  /** A publication whose writes all succeed arrives. */
  lemma Publishes(w: World, v: World, bank: Bank) returns (u: World)
    requires Leads(w, v) && Resting(v) && v.writer.Idle? && v.bridge.stage.Live? && |v.mem.banks| == 2
    requires v.mem.seqAt == v.bridge.seqAt
    ensures Leads(w, u) && Resting(u) && u.writer.Idle? && u.bridge == v.bridge.(seqAt := v.bridge.seqAt + 1)
    ensures u.mem == PublishedOn(v.mem, bank, v.clock) && u.clock == v.clock
  {
    hide Leads, Resting, PutByte, ReadStep, StartRead;
    u := Goes(w, v, BeginPublish(bank));
    u := StoreBank(w, u);
    u := Goes(w, u, BankDone(true));
    u := StoresPublished(w, u);
  }

  lemma ClearBank(w: World, v: World, side: nat) returns (u: World)
    requires Leads(w, v) && Resting(v) && v.writer.ArgsWrite? && |v.mem.banks| == 2 && side < 2
    ensures Leads(w, u) && Resting(u) && u == v.(mem := v.mem.(banks := v.mem.banks[side := ZeroBank()]))
  {
    hide Leads, Resting, SetPad, PutByte, ZeroPad;
    FourPads(v.mem.banks, side, ZeroBank());
    u := ClearPad(w, v, side, 0, 0);
    u := ClearPad(w, u, side, 1, 0);
    u := ClearPad(w, u, side, 2, 0);
    u := ClearPad(w, u, side, 3, 0);
  }

  /** An installation whose writes all succeed leaves the routes live and nothing published. */
  lemma Installs(w: World, v: World, count: nat, handles: Handles) returns (u: World)
    requires Leads(w, v) && Resting(v) && v.writer.Idle? && (v.bridge.stage.Empty? || v.bridge.stage.Reusable?)
    requires |v.mem.banks| == 2 && 1 <= count <= ROUTES
    ensures Leads(w, u) && Resting(u) && u.writer.Idle? && u.clock == v.clock
    ensures var epoch := OddAfter(v.bridge.epochAt) + 1;
      && u.bridge == Bridge(Live, v.bridge.seqAt, epoch, count, handles)
      && u.mem == Shared(false, v.bridge.seqAt, epoch, count, handles, [ZeroBank(), ZeroBank()], 0)
  {
    hide Leads, Resting, ZeroBank, Enabled, Apply;
    u := Opens(w, v, count, handles);
    u := StoreHandles(w, u);
    u := ClearBank(w, u, 0);
    u := ClearBank(w, u, 1);
    u := Closes(w, u);
  }

  lemma Opens(w: World, v: World, count: nat, handles: Handles) returns (u: World)
    requires Leads(w, v) && Resting(v) && v.writer.Idle? && (v.bridge.stage.Empty? || v.bridge.stage.Reusable?)
    requires |v.mem.banks| == 2 && 1 <= count <= ROUTES
    ensures Leads(w, u) && Resting(u) && u.writer == ArgsWrite(Plan(OddAfter(v.bridge.epochAt), count, handles))
    ensures u.mem == Shared(false, v.bridge.seqAt, OddAfter(v.bridge.epochAt), count, v.mem.handles, v.mem.banks, 0)
    ensures u.bridge == v.bridge.(stage := Quarantined) && u.clock == v.clock
  {
    hide Leads, Resting, PutByte, ReadStep, StartRead, OddAfter;
    u := Goes(w, v, BeginInstall(count, handles));
    u := Goes(w, u, StoreOdd(true, true));
    u := Goes(w, u, ClearActive);
    u := Goes(w, u, ResetSequence);
    u := Goes(w, u, StoreCount);
    u := Goes(w, u, ClearDeadline);
  }

  lemma Closes(w: World, v: World) returns (u: World)
    requires Leads(w, v) && Resting(v) && v.writer.ArgsWrite? && ArgsArrived(v.mem, v.bridge, v.writer.plan)
    ensures Leads(w, u) && Resting(u) && u.writer.Idle? && u.clock == v.clock
    ensures u.mem == v.mem.(epochAt := v.writer.plan.odd + 1)
    ensures u.bridge == Bridge(Live, v.bridge.seqAt, v.writer.plan.odd + 1, v.writer.plan.count, v.writer.plan.handles)
  {
    hide Leads, Resting, Enabled, Apply;
    ArgsKnown(v);
    u := Goes(w, v, ArgsDone(true));
    EvenStored(u);
    u := Goes(w, u, StoreEven(true, true));
    HooksKnown(u);
    u := Goes(w, u, HooksDone(true));
  }

  lemma ArgsKnown(v: World)
    requires v.writer.ArgsWrite? && ArgsArrived(v.mem, v.bridge, v.writer.plan)
    ensures Enabled(v, ArgsDone(true)) && Apply(v, ArgsDone(true)) == v.(writer := EvenWrite(v.writer.plan))
    ensures |v.mem.banks| == 2
  {
    hide ReadStep, StartRead, ZeroBank;
  }

  lemma EvenStored(v: World)
    requires v.writer.EvenWrite? && |v.mem.banks| == 2
    ensures Enabled(v, StoreEven(true, true))
    ensures var plan, u := v.writer.plan, Apply(v, StoreEven(true, true));
      && u.mem == v.mem.(epochAt := plan.odd + 1) && u.writer.Hooking? && u.clock == v.clock
      && u.bridge == v.bridge.(epochAt := plan.odd + 1, count := plan.count, handles := plan.handles)
  {
    hide ReadStep, StartRead;
  }

  lemma HooksKnown(v: World)
    requires v.writer.Hooking? && |v.mem.banks| == 2
    ensures Enabled(v, HooksDone(true)) && Apply(v, HooksDone(true)) == v.(bridge := v.bridge.(stage := Live), writer := Idle)
  {
    hide ReadStep, StartRead;
  }

  lemma StoreHandles(w: World, v: World) returns (u: World)
    requires Leads(w, v) && Resting(v) && v.writer.ArgsWrite? && |v.mem.banks| == 2
    ensures Leads(w, u) && Resting(u) && u == v.(mem := v.mem.(handles := v.writer.plan.handles))
  {
    hide Leads, Resting, PutByte, ZeroBank;
    u := Goes(w, v, StoreHandle(0));
    u := Goes(w, u, StoreHandle(1));
    u := Goes(w, u, StoreHandle(2));
    u := Goes(w, u, StoreHandle(3));
    assert u.mem.handles == v.writer.plan.handles;
  }

  /** Main result: from wherever routes may be installed, for any routes and any pads, an installation and a publication
      that succeed lead to a world in which a read of any route with a connected pad and a handle of its own is
      accepted with exactly that pad, as long as the lease lasts. */
  lemma Delivers(w: World, count: nat, handles: Handles, bank: Bank) returns (v: World)
    requires Resting(w) && w.writer.Idle? && (w.bridge.stage.Empty? || w.bridge.stage.Reusable?) && |w.mem.banks| == 2
    requires 1 <= count <= ROUTES
    ensures Leads(w, v) && v.clock == w.clock && |v.mem.banks| == 2 && v.mem.banks[v.mem.seqAt % 2] == bank
    ensures forall k: nat, clock: nat :: k < count && OnlyRoute(handles, handles[k], k, count) ==>
      (Readable(v.mem, clock, handles[k], k) <==> bank[k][CONNECTED] != 0 && clock < w.clock + LEASE)
  {
    hide Leads, Resting, ZeroBank, OnlyRoute;
    Here(w);
    v := Installs(w, w, count, handles);
    v := Publishes(w, v, bank);
  }
}
