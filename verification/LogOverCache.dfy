/**
  The log and the buffer cache of one kernel, in every interleaving of both, with crashes.

  A step is one of the log's protocol, one of the cache's, or one that both take part in: log_write, which pins the
  buffer it records; each block write of a commit, which is a bwrite; and the bunpin after a block's installation.
  A restart leaves the disk recovered and the cache with no buffer in use and none out of date.
 */
module LogOverCache {
  import opened LogSpec
  import Log
  import LP = LogProtocol
  import CP = CacheProtocol

  const NBUF := 30
  const ROOTDEV := 1

  type Cache = CP.State<Block>

  /** unpinned counts the blocks of the list that the commit under way has unpinned. */
  datatype State = State(l: LP.State, c: Cache, unpinned: nat)

  datatype Step =
    | LogOnly(l: LP.Step)
    | CacheOnly(c: CP.Step<Block>)
    | LogBlock(op: nat, h: nat)
    | DiskWrite(h: nat)
    | Unpin(h: nat)
    | Restart(js: seq<nat>)

  /** How many blocks of the list the commit under way has installed. */
  function Installed(l: LP.State): nat {
    if l.phase.Writing? && |l.lh| + 1 < l.phase.done
    then if l.phase.done <= 2 * |l.lh| then l.phase.done - |l.lh| - 1 else |l.lh|
    else 0
  }

  predicate Holding(c: Cache, h: nat, key: CP.Key, data: Block) {
    CP.Holds(c, h) && c.handles[h].key == key && c.bufs[c.handles[h].buf].data == data
  }

  ghost predicate Rested(c: Cache) {
    CP.Inv(c) && |c.bufs| == NBUF && c.handles == map[] && c.pins == map[]
  }

  /** The device the log is on. */
  ghost predicate Mirrors(l: LP.State, c: Cache) {
    forall a: nat {:trigger CP.Key(ROOTDEV, a)} :: a < |l.disk| ==>
        CP.Key(ROOTDEV, a) in c.disk && c.disk[CP.Key(ROOTDEV, a)] == l.disk[a]
  }

  ghost predicate Init(g: Geometry, base: Disk, s: State) {
    LP.Init(g, base, s.l) && Rested(s.c) && Mirrors(s.l, s.c) && s.unpinned == 0
  }

  /** begin_op, end_op, the end of a commit whose blocks are all unpinned, and a log_write that panics. */
  ghost predicate LogNext(g: Geometry, s: State, step: LP.Step, s': State) {
    && LP.Next(g, s.l, step, s'.l) && s'.c == s.c
    && match step
       case Begin => s'.unpinned == s.unpinned
       case End(_) => s'.unpinned == s.unpinned
       case CommitDone => s.unpinned == |s.l.lh| && s'.unpinned == 0
       case LogWrite(_, _, _) => !s'.l.panic.NoPanic? && s'.unpinned == s.unpinned
       case CommitWrite => false
       case Crash(_) => false
  }

  /** Any use of the cache, except that only the log writes to its device, pins and unpins. */
  ghost predicate CacheNext(s: State, step: CP.Step<Block>, s': State) {
    && CP.Next(s.c, step, s'.c) && s'.l == s.l && s'.unpinned == s.unpinned
    && !step.LogWrite? && !step.Unpin?
    && (step.Bwrite? ==> s.c.handles[step.h].key.dev != ROOTDEV)
  }

  ghost predicate Next(g: Geometry, s: State, step: Step, s': State) {
    (s.l.panic.NoPanic? || step.Restart?) &&
    match step
    case LogOnly(l) => LogNext(g, s, l, s')
    case CacheOnly(c) => CacheNext(s, c, s')
    case LogBlock(op, h) =>
      && CP.Next(s.c, CP.LogWrite(h), s'.c) && s'.unpinned == s.unpinned
      && var key, data := s.c.handles[h].key, s.c.bufs[s.c.handles[h].buf].data;
      && key.dev == ROOTDEV && LP.Next(g, s.l, LP.LogWrite(op, key.blockno, data), s'.l) && s'.l.panic.NoPanic?
    case DiskWrite(h) =>
      && LP.Next(g, s.l, LP.CommitWrite, s'.l) && s.unpinned == Installed(s.l) && s'.unpinned == s.unpinned
      && var w := LP.Plan(g, s.l)[s.l.phase.done];
      && Holding(s.c, h, CP.Key(ROOTDEV, w.addr), w.data) && CP.Next(s.c, CP.Bwrite(h), s'.c)
    case Unpin(h) =>
      && s.unpinned < Installed(s.l) && s.unpinned < |s.l.lh| && 0 <= s.l.lh[s.unpinned]
      && CP.Next(s.c, CP.Unpin(h), s'.c) && s.c.handles[h].key == CP.Key(ROOTDEV, s.l.lh[s.unpinned])
      && s'.l == s.l && s'.unpinned == s.unpinned + 1
    case Restart(js) =>
      LP.Next(g, s.l, LP.Crash(js), s'.l) && Rested(s'.c) && Mirrors(s'.l, s'.c) && s'.unpinned == 0
  }

  // ----- the invariant -----

  /** The pinned buffers are those of the logged blocks that are not unpinned yet. */
  ghost predicate Pinned(s: State) {
    && s.unpinned <= |s.l.lh| && s.unpinned <= Installed(s.l) <= s.unpinned + 1
    && forall k {:trigger k in s.c.pins} :: k in s.c.pins <==> k.dev == ROOTDEV && k.blockno in s.l.lh[s.unpinned..]
  }

  /** What the cacheless store holds of the file system is what the recorded writes make of the first disk. */
  ghost predicate Stores(g: Geometry, base: Disk, s: State)
    requires LP.RecsHome(g, base, s.l.past + s.l.cur)
  {
    forall a: nat {:trigger CP.Key(ROOTDEV, a)} :: IsHome(g, base, a) ==>
        CP.Key(ROOTDEV, a) in s.c.store && s.c.store[CP.Key(ROOTDEV, a)] == LP.Logical(g, base, s.l)[a]
  }

  ghost predicate Inv(g: Geometry, base: Disk, s: State) {
    && LP.Inv(g, base, s.l) && CP.Inv(s.c) && |s.c.bufs| == NBUF
    && Pinned(s) && Mirrors(s.l, s.c) && Stores(g, base, s)
  }

  /** A restarted pair: the log is empty, and the store is the disk. */
  lemma RestedInv(g: Geometry, base: Disk, s: State)
    requires LP.Inv(g, base, s.l) && Rested(s.c) && Mirrors(s.l, s.c) && s.unpinned == 0
    requires s.l.lh == [] && s.l.mem == map[] && s.l.phase.Quiet? && s.l.cur == []
    ensures Inv(g, base, s)
  {
    assert s.l.past + s.l.cur == s.l.past;
    forall a: nat | IsHome(g, base, a)
      ensures CP.Key(ROOTDEV, a) in s.c.store && s.c.store[CP.Key(ROOTDEV, a)] == LP.Logical(g, base, s.l)[a]
    {
      assert s.l.disk[a] == LP.Logical(g, base, s.l)[a];
    }
  }

  // ----- steps of one of the two -----

  lemma LogOnlyPinned(g: Geometry, s: State, step: LP.Step, s': State)
    requires Pinned(s) && LogNext(g, s, step, s') && (s.l.phase.Writing? ==> s.l.committing)
    requires LP.InvCount(g, s.l)
    ensures Pinned(s') && s'.l.disk == s.l.disk && s'.l.past + s'.l.cur == s.l.past + s.l.cur
  {}

  lemma LogOnlyInv(g: Geometry, base: Disk, s: State, step: LP.Step, s': State)
    requires Inv(g, base, s) && LogNext(g, s, step, s')
    ensures Inv(g, base, s')
  {
    LP.NextInv(g, base, s.l, step, s'.l);
    LogOnlyPinned(g, s, step, s');
    StoresKept(g, base, s, s');
  }

  lemma StoresKept(g: Geometry, base: Disk, s: State, s': State)
    requires LP.RecsHome(g, base, s.l.past + s.l.cur) && Stores(g, base, s)
    requires s'.l.past + s'.l.cur == s.l.past + s.l.cur && s'.c.store == s.c.store
    ensures Stores(g, base, s')
  {}

  /** A bwrite to another device leaves this one's blocks alone, on disk and in the store. */
  lemma CacheOnlySame(s: State, step: CP.Step<Block>, s': State)
    requires CP.InvKeys(s.c) && CacheNext(s, step, s')
    ensures s'.c.pins == s.c.pins && |s'.c.bufs| == |s.c.bufs|
    ensures forall k: CP.Key :: k.dev == ROOTDEV && k in s.c.disk ==> k in s'.c.disk && s'.c.disk[k] == s.c.disk[k]
    ensures forall k: CP.Key :: k.dev == ROOTDEV && k in s.c.store ==> k in s'.c.store && s'.c.store[k] == s.c.store[k]
  {}

  lemma CacheOnlyInv(g: Geometry, base: Disk, s: State, step: CP.Step<Block>, s': State)
    requires Inv(g, base, s) && CacheNext(s, step, s')
    ensures Inv(g, base, s')
  {
    CP.NextInv(s.c, step, s'.c);
    CacheOnlySame(s, step, s');
  }

  // ----- log_write -----

  lemma LogBlockCache(s: State, h: nat, s': State)
    requires CP.InvKeys(s.c) && CP.Next(s.c, CP.LogWrite(h), s'.c)
    ensures var key, data := s.c.handles[h].key, s.c.bufs[s.c.handles[h].buf].data;
            && s'.c.disk == s.c.disk && s'.c.store == s.c.store[key := data] && |s'.c.bufs| == |s.c.bufs|
            && s'.c.pins.Keys == s.c.pins.Keys + {key}
  {}

  lemma AbsorbedPins(s: State, key: CP.Key, s': State)
    requires Pinned(s) && Installed(s.l) == 0 == Installed(s'.l) && s'.unpinned == s.unpinned && key.dev == ROOTDEV
    requires s'.l.lh == Log.Absorb(s.l.lh, key.blockno) && s'.c.pins.Keys == s.c.pins.Keys + {key}
    ensures Pinned(s')
  {
    assert s.l.lh[0..] == s.l.lh && s'.l.lh[0..] == s'.l.lh;
    forall k
      ensures k in s'.c.pins <==> k.dev == ROOTDEV && k.blockno in s'.l.lh[s'.unpinned..]
    {
      assert k in s'.c.pins <==> k in s.c.pins || k == key;
    }
  }

  lemma LogBlockInv(g: Geometry, base: Disk, s: State, op: nat, h: nat, s': State)
    requires Inv(g, base, s) && Next(g, s, LogBlock(op, h), s')
    ensures Inv(g, base, s')
  {
    var key, data := s.c.handles[h].key, s.c.bufs[s.c.handles[h].buf].data;
    LP.NextInv(g, base, s.l, LP.LogWrite(op, key.blockno, data), s'.l);
    LP.LogWriteCount(g, s.l, op, key.blockno, data, s'.l);
    CP.NextInv(s.c, CP.LogWrite(h), s'.c);
    LogBlockCache(s, h, s');
    AbsorbedPins(s, key, s');
    LogBlockStores(g, base, s, LP.Rec(op, s.l.txn, key.blockno, data), key, s');
  }

  lemma LogBlockStores(g: Geometry, base: Disk, s: State, r: LP.Rec, key: CP.Key, s': State)
    requires LP.RecsHome(g, base, s.l.past + s.l.cur) && Stores(g, base, s) && IsHome(g, base, r.block)
    requires key == CP.Key(ROOTDEV, r.block) && s'.l.past == s.l.past && s'.l.cur == s.l.cur + [r]
    requires s'.c.store == s.c.store[key := r.data]
    ensures LP.RecsHome(g, base, s'.l.past + s'.l.cur) && Stores(g, base, s')
  {
    assert s'.l.past + s'.l.cur == s.l.past + s.l.cur + [r];
    LP.ReplayNext(g, base, s.l.past + s.l.cur, r);
  }

  // ----- the writes of a commit -----

  /** What was logged for a block is what the file system sees there. */
  lemma LoggedIsLogical(g: Geometry, base: Disk, l: LP.State, a: int)
    requires LP.InvShape(g, base, l) && LP.InvDisk(g, base, l) && a in l.mem
    ensures IsHome(g, base, a) && LP.Logical(g, base, l)[a] == l.mem[a]
  {
    var d := if l.phase.Writing? then l.phase.base else l.disk;
    assert a in Log.Elems(l.lh);
    assert Updated(d, l.mem)[a] == l.mem[a];
  }

  /** So is what commit writes to a home block. */
  lemma WritesLogical(g: Geometry, base: Disk, l: LP.State)
    requires LP.Inv(g, base, l) && LP.Committable(g, l) && l.phase.done < |LP.Plan(g, l)|
    ensures var w := LP.Plan(g, l)[l.phase.done]; IsHome(g, base, w.addr) ==> w.data == LP.Logical(g, base, l)[w.addr]
  {
    var w := LP.Plan(g, l)[l.phase.done];
    PlanAt(g, l.phase.base, l.lh, l.mem, l.phase.done);
    if IsHome(g, base, w.addr) {
      LoggedIsLogical(g, base, l, w.addr);
    }
  }

  lemma DiskWriteCache(s: State, h: nat, key: CP.Key, data: Block, s': State)
    requires CP.InvKeys(s.c) && CP.Next(s.c, CP.Bwrite(h), s'.c) && Holding(s.c, h, key, data)
    ensures s'.c.disk == s.c.disk[key := data] && s'.c.store == s.c.store[key := data]
    ensures s'.c.pins == s.c.pins && |s'.c.bufs| == |s.c.bufs|
  {}

  lemma DiskWriteStores(g: Geometry, base: Disk, s: State, w: Write, s': State)
    requires LP.RecsHome(g, base, s.l.past + s.l.cur) && Stores(g, base, s)
    requires s'.l.past == s.l.past && s'.l.cur == s.l.cur && w.addr >= 0
    requires s'.c.store == s.c.store[CP.Key(ROOTDEV, w.addr) := w.data]
    requires IsHome(g, base, w.addr) ==> w.data == LP.Logical(g, base, s.l)[w.addr]
    ensures Stores(g, base, s')
  {}

  lemma DiskWritePinned(s: State, s': State)
    requires Pinned(s) && s.unpinned == Installed(s.l) == s'.unpinned && s'.c.pins == s.c.pins
    requires s.l.phase.Writing? && s.l.phase.done < 2 * |s.l.lh| + 2
    requires s'.l.phase == LP.Writing(s.l.phase.base, s.l.phase.done + 1) && s'.l.lh == s.l.lh
    ensures Pinned(s')
  {}

  lemma DiskWriteMirrors(s: State, w: Write, s': State)
    requires Mirrors(s.l, s.c) && 0 <= w.addr < |s.l.disk|
    requires s'.l.disk == s.l.disk[w.addr := w.data] && s'.c.disk == s.c.disk[CP.Key(ROOTDEV, w.addr) := w.data]
    ensures Mirrors(s'.l, s'.c)
  {}

  lemma DiskWriteParts(g: Geometry, s: State, h: nat, s': State) returns (w: Write)
    requires Next(g, s, DiskWrite(h), s')
    ensures LP.Committable(g, s.l) && s.l.phase.done < |LP.Plan(g, s.l)| && w == LP.Plan(g, s.l)[s.l.phase.done]
    ensures 0 <= w.addr < |s.l.disk| && s.unpinned == Installed(s.l) == s'.unpinned
    ensures s'.l == s.l.(disk := s.l.disk[w.addr := w.data], phase := LP.Writing(s.l.phase.base, s.l.phase.done + 1))
    ensures LP.Next(g, s.l, LP.CommitWrite, s'.l) && CP.Next(s.c, CP.Bwrite(h), s'.c)
    ensures Holding(s.c, h, CP.Key(ROOTDEV, w.addr), w.data)
  {
    w := LP.Plan(g, s.l)[s.l.phase.done];
  }

  lemma DiskWriteInv(g: Geometry, base: Disk, s: State, h: nat, s': State)
    requires Inv(g, base, s) && Next(g, s, DiskWrite(h), s')
    ensures Inv(g, base, s')
  {
    var w := DiskWriteParts(g, s, h, s');
    LP.NextInv(g, base, s.l, LP.CommitWrite, s'.l);
    CP.NextInv(s.c, CP.Bwrite(h), s'.c);
    DiskWriteCache(s, h, CP.Key(ROOTDEV, w.addr), w.data, s');
    DiskWriteMirrors(s, w, s');
    DiskWritePinned(s, s');
    WritesLogical(g, base, s.l);
    DiskWriteStores(g, base, s, w, s');
  }

  // ----- bunpin -----

  lemma UnpinCache(s: State, h: nat, s': State)
    requires CP.InvKeys(s.c) && CP.Next(s.c, CP.Unpin(h), s'.c)
    ensures s'.c.disk == s.c.disk && s'.c.store == s.c.store && |s'.c.bufs| == |s.c.bufs|
    ensures s'.c.pins == s.c.pins - {s.c.handles[h].key}
  {}

  lemma UnpinPinned(s: State, key: CP.Key, s': State)
    requires Pinned(s) && Log.Distinct(s.l.lh) && s.unpinned < Installed(s.l) && s.unpinned < |s.l.lh|
    requires key.dev == ROOTDEV && key.blockno == s.l.lh[s.unpinned]
    requires s'.l == s.l && s'.unpinned == s.unpinned + 1 && s'.c.pins == s.c.pins - {key}
    ensures Pinned(s')
  {
    assert s.l.lh[s.unpinned..] == [s.l.lh[s.unpinned]] + s.l.lh[s.unpinned + 1..];
  }

  lemma UnpinInv(g: Geometry, base: Disk, s: State, h: nat, s': State)
    requires Inv(g, base, s) && Next(g, s, Unpin(h), s')
    ensures Inv(g, base, s')
  {
    CP.NextInv(s.c, CP.Unpin(h), s'.c);
    UnpinCache(s, h, s');
    UnpinPinned(s, s.c.handles[h].key, s');
    StoresKept(g, base, s, s');
  }

  // ----- runs -----

  lemma NextInv(g: Geometry, base: Disk, s: State, step: Step, s': State)
    requires Inv(g, base, s) && Next(g, s, step, s')
    ensures Inv(g, base, s')
  {
    match step
    case LogOnly(l) => LogOnlyInv(g, base, s, l, s');
    case CacheOnly(c) => CacheOnlyInv(g, base, s, c, s');
    case LogBlock(op, h) => LogBlockInv(g, base, s, op, h, s');
    case DiskWrite(h) => DiskWriteInv(g, base, s, h, s');
    case Unpin(h) => UnpinInv(g, base, s, h, s');
    case Restart(js) =>
      LP.NextInv(g, base, s.l, LP.Crash(js), s'.l);
      RestedInv(g, base, s');
  }

  ghost predicate IsRun(g: Geometry, base: Disk, run: seq<State>, steps: seq<Step>) {
    && |run| == |steps| + 1 && Init(g, base, run[0])
    && forall i :: 0 <= i < |steps| ==> Next(g, run[i], steps[i], run[i + 1])
  }

  lemma {:induction false} RunInv(g: Geometry, base: Disk, run: seq<State>, steps: seq<Step>, i: nat)
    requires IsRun(g, base, run, steps) && i < |run|
    ensures Inv(g, base, run[i])
  {
    if i == 0 {
      LP.InitInv(g, base, run[0].l);
      RestedInv(g, base, run[0]);
    } else {
      RunInv(g, base, run, steps, i - 1);
      NextInv(g, base, run[i - 1], steps[i - 1], run[i]);
    }
  }

  /** The holder has a buffer of this device with valid data that it has not changed. */
  predicate Clean(c: Cache, h: nat, a: nat) {
    && CP.Holds(c, h) && c.handles[h].key == CP.Key(ROOTDEV, a)
    && !c.handles[h].phase.dirty && c.bufs[c.handles[h].buf].valid
  }

  lemma CleanIsStored(c: Cache, h: nat, a: nat)
    requires CP.Inv(c) && Clean(c, h, a)
    ensures CP.Key(ROOTDEV, a) in c.store && c.bufs[c.handles[h].buf].data == c.store[CP.Key(ROOTDEV, a)]
    ensures CP.Key(ROOTDEV, a) in c.disk
    ensures CP.Key(ROOTDEV, a) !in c.pins ==> c.disk[CP.Key(ROOTDEV, a)] == c.store[CP.Key(ROOTDEV, a)]
  {
    assert CP.GoodData(c, c.handles[h].buf);
  }

  lemma CleanIsLogical(g: Geometry, base: Disk, s: State, h: nat, a: nat)
    requires Inv(g, base, s) && Clean(s.c, h, a) && IsHome(g, base, a)
    ensures s.c.bufs[s.c.handles[h].buf].data == LP.Logical(g, base, s.l)[a]
  {
    CleanIsStored(s.c, h, a);
  }

  /**
    Through cache, log and any number of crashes: what a file system operation finds in a block it has read is what
    the recorded writes, each applied to the block at once, would have put there.
   */
  lemma SeesRecordedWrites(g: Geometry, base: Disk, run: seq<State>, steps: seq<Step>, i: nat, h: nat, a: nat)
    requires IsRun(g, base, run, steps) && i < |run| && Clean(run[i].c, h, a) && IsHome(g, base, a)
    ensures var s := run[i];
            && LP.RecsHome(g, base, s.l.past + s.l.cur)
            && s.c.bufs[s.c.handles[h].buf].data == LP.Replay(g, base, s.l.past + s.l.cur)[a]
  {
    RunInv(g, base, run, steps, i);
    CleanIsLogical(g, base, run[i], h, a);
  }

  lemma LogWriteData(g: Geometry, base: Disk, l: LP.State)
    requires LP.InvShape(g, base, l) && LP.InvDisk(g, base, l) && LP.Committable(g, l) && l.phase.done < |l.lh|
    ensures l.phase.done < |LP.Plan(g, l)| && IsHome(g, base, l.lh[l.phase.done])
    ensures LP.Plan(g, l)[l.phase.done].data == LP.Logical(g, base, l)[l.lh[l.phase.done]]
  {
    PlanAt(g, l.phase.base, l.lh, l.mem, l.phase.done);
    LoggedIsLogical(g, base, l, l.lh[l.phase.done]);
  }

  /** write_log finds the logged block's contents in the cache. */
  lemma WriteLogReads(g: Geometry, base: Disk, s: State, h: nat, a: nat)
    requires Inv(g, base, s) && Clean(s.c, h, a) && LP.Committable(g, s.l) && s.l.phase.done < |s.l.lh|
    requires a == s.l.lh[s.l.phase.done]
    ensures s.l.phase.done < |LP.Plan(g, s.l)|
    ensures s.c.bufs[s.c.handles[h].buf].data == LP.Plan(g, s.l)[s.l.phase.done].data
  {
    LogWriteData(g, base, s.l);
    CleanIsLogical(g, base, s, h, a);
  }

  lemma InstallData(g: Geometry, base: Disk, l: LP.State, a: nat)
    requires LP.InvShape(g, base, l) && LP.InvDisk(g, base, l) && LP.Committable(g, l)
    requires |l.lh| < l.phase.done <= 2 * |l.lh| && a == g.start + l.phase.done - |l.lh|
    ensures l.phase.done < |LP.Plan(g, l)| && a < |l.disk| && InLog(g, a)
    ensures LP.Plan(g, l)[l.phase.done].data == l.disk[a]
  {
    InstallCopies(g, l.phase.base, l.lh, l.mem, l.phase.done, a);
  }

  lemma LogAreaUnpinned(g: Geometry, base: Disk, s: State, a: nat)
    requires LP.InvShape(g, base, s.l) && Pinned(s) && InLog(g, a)
    ensures CP.Key(ROOTDEV, a) !in s.c.pins
  {}

  /** install_trans finds there the log's copy of them. */
  lemma InstallReads(g: Geometry, base: Disk, s: State, h: nat, a: nat)
    requires Inv(g, base, s) && Clean(s.c, h, a) && LP.Committable(g, s.l)
    requires |s.l.lh| < s.l.phase.done <= 2 * |s.l.lh| && a == g.start + s.l.phase.done - |s.l.lh|
    ensures s.l.phase.done < |LP.Plan(g, s.l)|
    ensures s.c.bufs[s.c.handles[h].buf].data == LP.Plan(g, s.l)[s.l.phase.done].data
  {
    InstallData(g, base, s.l, a);
    LogAreaUnpinned(g, base, s, a);
    CleanIsStored(s.c, h, a);
    assert s.l.disk[a] == s.c.disk[CP.Key(ROOTDEV, a)];
  }

  /** So whatever commit is to write next into the log or a home block, it can copy from the buffer it reads first. */
  lemma CommitReadsCache(g: Geometry, base: Disk, run: seq<State>, steps: seq<Step>, i: nat, h: nat, a: nat)
    requires IsRun(g, base, run, steps) && i < |run| && Clean(run[i].c, h, a) && LP.Committable(g, run[i].l)
    requires var l, k := run[i].l, run[i].l.phase.done;
             if k < |l.lh| then a == l.lh[k] else |l.lh| < k <= 2 * |l.lh| && a == g.start + k - |l.lh|
    ensures var s := run[i];
            && s.l.phase.done < |LP.Plan(g, s.l)|
            && s.c.bufs[s.c.handles[h].buf].data == LP.Plan(g, s.l)[s.l.phase.done].data
  {
    RunInv(g, base, run, steps, i);
    if run[i].l.phase.done < |run[i].l.lh| {
      WriteLogReads(g, base, run[i], h, a);
    } else {
      InstallReads(g, base, run[i], h, a);
    }
  }

  // ----- whether commit gets its buffers -----

  lemma {:induction false} PinCount(pins: map<CP.Key, nat>, lh: seq<int>)
    requires Log.Distinct(lh) && forall i :: 0 <= i < |lh| ==> lh[i] >= 0
    requires forall k {:trigger k in pins} :: k in pins <==> k.dev == ROOTDEV && k.blockno in lh
    ensures |pins| == |lh|
  {
    if lh == [] {
      assert pins == map[];
    } else {
      var key := CP.Key(ROOTDEV, lh[0]);
      assert key in pins;
      PinCount(pins - {key}, lh[1..]);
    }
  }

  lemma PinnedCount(g: Geometry, base: Disk, s: State)
    requires LP.InvShape(g, base, s.l) && Pinned(s)
    ensures |s.c.pins| == |s.l.lh| - s.unpinned
  {
    PinCount(s.c.pins, s.l.lh[s.unpinned..]);
  }

  /** With no users, bget finds a buffer for a block that is not pinned unless all buffers are pinned. */
  lemma BufferForBlock(c: Cache, key: CP.Key)
    requires CP.Inv(c) && key !in c.pins && |c.pins| <= |c.bufs|
    ensures |c.pins| + |c.handles| < |c.bufs| ==> !CP.NoBuffers(c, key)
    ensures c.handles == map[] ==> (CP.NoBuffers(c, key) <==> |c.pins| == |c.bufs|)
  {
    if |c.pins| + |c.handles| < |c.bufs| {
      CP.BuffersSuffice(c, key);
    }
    if |c.pins| == |c.bufs| {
      CP.AllPinned(c, key);
    }
  }

  /**
    In every state of every run commit gets a buffer for a block of the log area whenever pinned blocks and other
    users leave one; with nobody else using the cache, exactly unless NBUF blocks are logged and none of them is
    unpinned yet. On a log area of at most NBUF blocks it always does.
   */
  lemma CommitGetsBuffer(g: Geometry, base: Disk, run: seq<State>, steps: seq<Step>, i: nat, b: nat)
    requires IsRun(g, base, run, steps) && i < |run| && InLog(g, b)
    ensures var s := run[i];
            && (|s.l.lh| - s.unpinned + |s.c.handles| < NBUF ==> !CP.NoBuffers(s.c, CP.Key(ROOTDEV, b)))
            && (s.c.handles == map[] ==>
                  (CP.NoBuffers(s.c, CP.Key(ROOTDEV, b)) <==> |s.l.lh| == NBUF && s.unpinned == 0))
            && (s.c.handles == map[] && g.size <= NBUF ==> !CP.NoBuffers(s.c, CP.Key(ROOTDEV, b)))
  {
    RunInv(g, base, run, steps, i);
    LP.LoggedSize(g, base, run[i].l);
    PinnedCount(g, base, run[i]);
    LogAreaUnpinned(g, base, run[i], b);
    BufferForBlock(run[i].c, CP.Key(ROOTDEV, b));
  }
}
