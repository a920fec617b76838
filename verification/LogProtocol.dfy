/**
  Every interleaving of file system operations over the log, with a crash possible at any point.

  Operations are numbered as they are admitted. One step is one critical section under log.lock
  (begin_op, log_write, end_op), one block write of commit, the end of a commit, or a crash followed
  by recoveries of which all but the last are cut off. A panic stops everything but a restart. The field
  `ops` and those from `nextOp` on only record history: the blocks each operation in flight has logged,
  and every record of every operation.
 */
module LogProtocol {
  import opened LogSpec
  import opened Log

  datatype Rec = Rec(op: nat, txn: nat, block: int, data: Block)
  datatype Phase = Quiet | Writing(base: Disk, done: nat)

  datatype State = State(
    disk: Disk,
    lh: seq<int>,
    mem: map<int, Block>,
    outstanding: int,
    committing: bool,
    ops: map<nat, set<int>>,
    phase: Phase,
    panic: Panic,
    nextOp: nat,
    txn: nat,
    past: seq<Rec>,
    cur: seq<Rec>)

  datatype Step =
    | Begin
    | LogWrite(op: nat, block: int, data: Block)
    | End(op: nat)
    | CommitWrite
    | CommitDone
    | Crash(js: seq<nat>)

  predicate Init(g: Geometry, base: Disk, s: State) {
    && GoodHead(g, base) && Head(g, base) == []
    && s == State(base, [], map[], 0, false, map[], Quiet, NoPanic, 0, 0, [], [])
  }

  /** The writes of the commit under way. */
  ghost function Plan(g: Geometry, s: State): seq<Write>
    requires s.phase.Writing? && Fits(g, s.phase.base) && GoodList(g, s.phase.base, s.lh)
    requires s.mem.Keys == Elems(s.lh)
  {
    CommitPlan(g, s.phase.base, s.lh, s.mem)
  }

  ghost predicate Committable(g: Geometry, s: State) {
    && s.phase.Writing? && Fits(g, s.phase.base) && GoodList(g, s.phase.base, s.lh)
    && s.mem.Keys == Elems(s.lh)
  }

  /** The header of the transaction under way has reached the disk. */
  predicate HeaderWritten(s: State) {
    s.phase.Writing? && s.phase.done > |s.lh|
  }

  ghost predicate Next(g: Geometry, s: State, step: Step, s': State) {
    (s.panic.NoPanic? || step.Crash?) &&
    match step
    case Begin =>
      && MayBegin(|s.lh|, s.outstanding, s.committing)
      && s' == s.(outstanding := s.outstanding + 1, ops := s.ops[s.nextOp := {}], nextOp := s.nextOp + 1)
    case LogWrite(op, b, data) =>
      && op in s.ops && |s.ops[op]| < MAXOPBLOCKS && IsHome(g, s.disk, b)
      && var panic := LogWritePanic(g, |s.lh|, s.outstanding);
      && if !panic.NoPanic?
         then s' == s.(panic := panic)
         else s' == s.(lh := Absorb(s.lh, b), mem := s.mem[b := data], ops := s.ops[op := s.ops[op] + {b}],
                       cur := s.cur + [Rec(op, s.txn, b, data)])
    case End(op) =>
      && op in s.ops
      && if !EndOpPanic(s.committing).NoPanic?
         then s' == s.(outstanding := s.outstanding - 1, panic := EndOpPanic(s.committing))
         else if s.outstanding - 1 == 0
         then s' == s.(outstanding := s.outstanding - 1, ops := s.ops - {op},
                       committing := true, phase := Writing(s.disk, 0))
         else s' == s.(outstanding := s.outstanding - 1, ops := s.ops - {op})
    case CommitWrite =>
      && Committable(g, s) && s.phase.done < |Plan(g, s)|
      && var w := Plan(g, s)[s.phase.done];
      && 0 <= w.addr < |s.disk|
      && s' == s.(disk := s.disk[w.addr := w.data], phase := Writing(s.phase.base, s.phase.done + 1))
    case CommitDone =>
      && Committable(g, s) && s.phase.done == |Plan(g, s)|
      && s' == s.(lh := [], mem := map[], committing := false, phase := Quiet,
                  txn := s.txn + 1, past := s.past + s.cur, cur := [])
    case Crash(js) =>
      && GoodHead(g, s.disk)
      && var kept := HeaderWritten(s);
      && s' == State(Recover(g, CrashedRecoveries(g, s.disk, js)), [], map[], 0, false, map[], Quiet, NoPanic,
                     s.nextOp, if kept then s.txn + 1 else s.txn, Durable(s), [])
  }

  /** The records whose transaction has passed its commit point. */
  function Durable(s: State): seq<Rec> {
    if HeaderWritten(s) then s.past + s.cur else s.past
  }

  // ----- what the records mean -----

  predicate RecsHome(g: Geometry, d: Disk, rs: seq<Rec>) {
    forall i :: 0 <= i < |rs| ==> IsHome(g, d, rs[i].block)
  }

  /** The disk a store without log, cache or crash would hold after the recorded block writes. */
  ghost function Replay(g: Geometry, d: Disk, rs: seq<Rec>): (e: Disk)
    requires RecsHome(g, d, rs)
    ensures |e| == |d|
  {
    if rs == [] then d else
      var r := rs[|rs| - 1];
      Replay(g, d, rs[..|rs| - 1])[r.block := r.data]
  }

  lemma ReplayNext(g: Geometry, d: Disk, rs: seq<Rec>, r: Rec)
    requires RecsHome(g, d, rs) && IsHome(g, d, r.block)
    ensures RecsHome(g, d, rs + [r]) && Replay(g, d, rs + [r]) == Replay(g, d, rs)[r.block := r.data]
  {
    assert (rs + [r])[..|rs|] == rs;
  }

  // ----- reserved log space -----

  /** What the operations in flight may still add to the log. */
  ghost function Reserved(ops: map<nat, set<int>>): int {
    if ops == map[] then 0 else
      var op :| op in ops;
      MAXOPBLOCKS - |ops[op]| + Reserved(ops - {op})
  }

  lemma {:induction false} ReservedSplit(ops: map<nat, set<int>>, op: nat)
    requires op in ops
    ensures Reserved(ops) == MAXOPBLOCKS - |ops[op]| + Reserved(ops - {op})
    decreases |ops|
  {
    var o :| o in ops && Reserved(ops) == MAXOPBLOCKS - |ops[o]| + Reserved(ops - {o});
    if o != op {
      ReservedSplit(ops - {o}, op);
      assert ops - {o} - {op} == ops - {op} - {o};
      ReservedSplit(ops - {op}, o);
    }
  }

  lemma {:induction false} ReservedBounds(ops: map<nat, set<int>>)
    requires forall op :: op in ops ==> |ops[op]| <= MAXOPBLOCKS
    ensures 0 <= Reserved(ops) <= |ops| * MAXOPBLOCKS
    decreases |ops|
  {
    if ops != map[] {
      var o :| o in ops && Reserved(ops) == MAXOPBLOCKS - |ops[o]| + Reserved(ops - {o});
      ReservedBounds(ops - {o});
    }
  }

  // ----- the invariant, in four parts -----

  ghost predicate InvShape(g: Geometry, base: Disk, s: State) {
    && GoodHead(g, base) && |s.disk| == |base|
    && GoodList(g, base, s.lh) && Distinct(s.lh) && s.mem.Keys == Elems(s.lh)
    && (s.committing <==> s.phase.Writing?)
    && (s.phase.Writing? ==> |s.phase.base| == |base|)
  }

  ghost predicate InvCount(g: Geometry, s: State) {
    && (s.panic.NoPanic? || (s.panic.TooBig? && g.size <= LOGSIZE))
    && s.outstanding == |s.ops|
    && (forall op :: op in s.ops ==> |s.ops[op]| <= MAXOPBLOCKS && s.ops[op] <= Elems(s.lh))
    && (s.committing ==> s.ops == map[])
    && |s.lh| + Reserved(s.ops) <= LOGSIZE
  }

  ghost predicate InvHistory(s: State) {
    && (forall r :: r in s.past ==> r.txn < s.txn && r.op < s.nextOp && r.op !in s.ops)
    && (forall r :: r in s.cur ==> r.txn == s.txn && r.op < s.nextOp)
    && (forall r, q :: r in s.past && q in s.past && r.op == q.op ==> r.txn == q.txn)
    && (forall r, q :: r in s.past && q in s.cur ==> r.op != q.op)
    && (forall op :: op in s.ops ==> op < s.nextOp)
    && (forall b :: b in s.lh <==> exists r :: r in s.cur && r.block == b)
  }

  ghost predicate InvDisk(g: Geometry, base: Disk, s: State)
    requires InvShape(g, base, s)
  {
    && RecsHome(g, base, s.past) && RecsHome(g, base, s.past + s.cur)
    && var d := if s.phase.Writing? then s.phase.base else s.disk;
    && GoodHead(g, d) && Head(g, d) == []
    && SameHome(g, d, Replay(g, base, s.past))
    && SameHome(g, Updated(d, s.mem), Replay(g, base, s.past + s.cur))
    && (s.phase.Writing? ==> s.phase.done <= |Plan(g, s)| && s.disk == Apply(d, Plan(g, s)[..s.phase.done]))
  }

  ghost predicate Inv(g: Geometry, base: Disk, s: State) {
    InvShape(g, base, s) && InvCount(g, s) && InvHistory(s) && InvDisk(g, base, s)
  }

  lemma InitInv(g: Geometry, base: Disk, s: State)
    requires Init(g, base, s)
    ensures Inv(g, base, s)
  {
  }

  lemma BeginInv(g: Geometry, base: Disk, s: State, s': State)
    requires Inv(g, base, s) && Next(g, s, Begin, s')
    ensures Inv(g, base, s')
  {
    BeginCount(g, s, s');
    BeginHistory(g, s, s');
    DiskFrame(g, base, s, s');
  }

  lemma BeginHistory(g: Geometry, s: State, s': State)
    requires InvHistory(s) && Next(g, s, Begin, s')
    ensures InvHistory(s')
  {
  }

  lemma BeginCount(g: Geometry, s: State, s': State)
    requires InvCount(g, s) && InvHistory(s) && Next(g, s, Begin, s')
    ensures InvCount(g, s')
  {
    ReservedBounds(s.ops);
    ReservedSplit(s'.ops, s.nextOp);
    assert s'.ops - {s.nextOp} == s.ops;
  }

  lemma DiskFrame(g: Geometry, base: Disk, s: State, s': State)
    requires InvShape(g, base, s) && InvDisk(g, base, s)
    requires s'.disk == s.disk && s'.lh == s.lh && s'.mem == s.mem && s'.phase == s.phase
    requires s'.past == s.past && s'.cur == s.cur && s'.committing == s.committing
    ensures InvShape(g, base, s') && InvDisk(g, base, s')
  {
  }

  lemma LogWriteCount(g: Geometry, s: State, op: nat, b: int, data: Block, s': State)
    requires InvCount(g, s) && Next(g, s, LogWrite(op, b, data), s')
    ensures InvCount(g, s') && !s.committing && (s'.panic.NoPanic? || s' == s.(panic := TooBig))
  {
    ReservedSplit(s.ops, op);
    ReservedBounds(s.ops - {op});
    if s'.panic.NoPanic? {
      assert s'.ops - {op} == s.ops - {op};
      ReservedSplit(s'.ops, op);
      assert s'.ops.Keys == s.ops.Keys;
      assert Elems(s'.lh) == Elems(s.lh) + {b};
    }
  }

  lemma LogWriteInv(g: Geometry, base: Disk, s: State, op: nat, b: int, data: Block, s': State)
    requires Inv(g, base, s) && Next(g, s, LogWrite(op, b, data), s')
    ensures Inv(g, base, s')
  {
    var r := Rec(op, s.txn, b, data);
    LogWriteCount(g, s, op, b, data, s');
    if s'.panic.NoPanic? {
      LogWriteShape(g, base, s, r, s');
      LogWriteDisk(g, base, s, r, s');
      LogWriteHistory(g, s, r, s');
    } else {
      DiskFrame(g, base, s, s');
    }
  }

  lemma LogWriteShape(g: Geometry, base: Disk, s: State, r: Rec, s': State)
    requires InvShape(g, base, s) && IsHome(g, s.disk, r.block) && s'.disk == s.disk && s'.committing == s.committing
    requires s'.phase == s.phase
    requires s'.lh == Absorb(s.lh, r.block) && s'.mem == s.mem[r.block := r.data] && |s.lh| < LOGSIZE
    requires |s.lh| < g.size - 1
    ensures InvShape(g, base, s')
  {}

  lemma LogWriteDisk(g: Geometry, base: Disk, s: State, r: Rec, s': State)
    requires InvShape(g, base, s) && InvShape(g, base, s') && InvDisk(g, base, s) && !s.committing
    requires IsHome(g, s.disk, r.block)
    requires s'.disk == s.disk && s'.phase == s.phase && s'.mem == s.mem[r.block := r.data] && s'.past == s.past
    requires s'.cur == s.cur + [r]
    ensures InvDisk(g, base, s')
  {
    assert s'.past + s'.cur == s.past + s.cur + [r];
    ReplayNext(g, base, s.past + s.cur, r);
    assert Updated(s.disk, s'.mem) == Updated(s.disk, s.mem)[r.block := r.data];
  }

  lemma LogWriteHistory(g: Geometry, s: State, r: Rec, s': State)
    requires InvHistory(s) && Next(g, s, LogWrite(r.op, r.block, r.data), s') && s'.panic.NoPanic? && r.txn == s.txn
    ensures InvHistory(s')
  {
    assert s'.cur == s.cur + [r];
    assert r in s'.cur;
    forall b ensures b in s'.lh <==> exists q :: q in s'.cur && q.block == b {
      if b in s.lh {
        var q :| q in s.cur && q.block == b;
        assert q in s'.cur;
      }
    }
  }

  lemma EndInv(g: Geometry, base: Disk, s: State, op: nat, s': State)
    requires Inv(g, base, s) && Next(g, s, End(op), s')
    ensures Inv(g, base, s')
  {
    ReservedSplit(s.ops, op);
    if |s.ops| == 1 {
      assert s.ops.Keys - {op} == {};
      assert s'.ops == map[];
      assert Plan(g, s')[..0] == [];
    }
  }

  lemma CommitWriteInv(g: Geometry, base: Disk, s: State, s': State)
    requires Inv(g, base, s) && Next(g, s, CommitWrite, s')
    ensures Inv(g, base, s')
  {
    ApplyNext(s.phase.base, Plan(g, s), s.phase.done);
  }

  lemma CommitDoneDisk(g: Geometry, base: Disk, s: State)
    requires InvShape(g, base, s) && InvDisk(g, base, s) && Committable(g, s) && s.phase.done == |Plan(g, s)|
    ensures GoodHead(g, s.disk) && Head(g, s.disk) == [] && SameHome(g, s.disk, Replay(g, base, s.past + s.cur))
  {
    assert Plan(g, s)[..s.phase.done] == Plan(g, s);
    if s.lh != [] {
      AfterHeader(g, s.phase.base, s.lh, s.mem, s.phase.done);
    }
  }

  /** The current transaction joins the past, or is lost. */
  lemma HistoryMoves(s: State, s': State)
    requires InvHistory(s) && s'.cur == [] && s'.lh == [] && s'.ops == map[] && s'.nextOp == s.nextOp
    requires (s'.past == s.past && s'.txn == s.txn) || (s'.past == s.past + s.cur && s'.txn == s.txn + 1)
    ensures InvHistory(s')
  {
    assert forall r :: r in s'.past ==> r in s.past || r in s.cur;
  }

  lemma CommitDoneInv(g: Geometry, base: Disk, s: State, s': State)
    requires Inv(g, base, s) && Next(g, s, CommitDone, s')
    ensures Inv(g, base, s')
  {
    assert InvShape(g, base, s') && InvDisk(g, base, s') by {
      CommitDoneDisk(g, base, s);
      RestartDisk(g, base, s');
    }
    HistoryMoves(s, s');
  }

  /** Nothing logged and nothing pinned: the disk alone carries the meaning. */
  lemma RestartDisk(g: Geometry, base: Disk, s: State)
    requires GoodHead(g, base) && |s.disk| == |base| && RecsHome(g, base, s.past)
    requires s.phase == Quiet && !s.committing && s.lh == [] && s.mem == map[] && s.cur == []
    requires GoodHead(g, s.disk) && Head(g, s.disk) == [] && SameHome(g, s.disk, Replay(g, base, s.past))
    ensures InvShape(g, base, s) && InvDisk(g, base, s)
  {
    assert s.past + s.cur == s.past;
    assert Updated(s.disk, s.mem) == s.disk;
  }

  /** A crash at any point, any number of interrupted recoveries, then a complete one. */
  lemma CrashRecovers(g: Geometry, base: Disk, s: State, js: seq<nat>)
    requires Inv(g, base, s)
    ensures RecsHome(g, base, Durable(s)) && GoodHead(g, s.disk)
    ensures var r := Recover(g, CrashedRecoveries(g, s.disk, js));
            GoodHead(g, r) && Head(g, r) == [] && SameHome(g, r, Replay(g, base, Durable(s)))
  {
    if s.phase.Writing? {
      CrashAtomicity(g, s.phase.base, s.lh, s.mem, s.phase.done, js);
    } else {
      EmptyRecovery(g, s.disk);
      RecoveryIsIdempotent(g, s.disk, js);
      RecoverClearsHead(g, CrashedRecoveries(g, s.disk, js));
    }
  }

  lemma CrashDisk(g: Geometry, base: Disk, s: State, js: seq<nat>, s': State)
    requires Inv(g, base, s) && Next(g, s, Crash(js), s')
    ensures InvShape(g, base, s') && InvDisk(g, base, s')
  {
    CrashRecovers(g, base, s, js);
    RestartDisk(g, base, s');
  }

  lemma CrashInv(g: Geometry, base: Disk, s: State, js: seq<nat>, s': State)
    requires Inv(g, base, s) && Next(g, s, Crash(js), s')
    ensures Inv(g, base, s')
  {
    CrashDisk(g, base, s, js, s');
    CrashHistory(g, s, js, s');
  }

  /** After a restart no operation is in flight, and the current transaction has joined the past or is lost. */
  lemma CrashHistory(g: Geometry, s: State, js: seq<nat>, s': State)
    requires InvHistory(s) && Next(g, s, Crash(js), s')
    ensures InvHistory(s') && InvCount(g, s')
  {
    HistoryMoves(s, s');
  }

  lemma NextInv(g: Geometry, base: Disk, s: State, step: Step, s': State)
    requires Inv(g, base, s) && Next(g, s, step, s')
    ensures Inv(g, base, s')
  {
    match step
    case Begin => BeginInv(g, base, s, s');
    case LogWrite(op, b, data) => LogWriteInv(g, base, s, op, b, data, s');
    case End(op) => EndInv(g, base, s, op, s');
    case CommitWrite => CommitWriteInv(g, base, s, s');
    case CommitDone => CommitDoneInv(g, base, s, s');
    case Crash(js) => CrashInv(g, base, s, js, s');
  }

  // ----- runs -----

  ghost predicate IsRun(g: Geometry, base: Disk, run: seq<State>, steps: seq<Step>) {
    && |run| == |steps| + 1 && Init(g, base, run[0])
    && forall i :: 0 <= i < |steps| ==> Next(g, run[i], steps[i], run[i + 1])
  }

  lemma {:induction false} RunInv(g: Geometry, base: Disk, run: seq<State>, steps: seq<Step>, i: nat)
    requires IsRun(g, base, run, steps) && i < |run|
    ensures Inv(g, base, run[i])
  {
    if i == 0 {
      InitInv(g, base, run[0]);
    } else {
      RunInv(g, base, run, steps, i - 1);
      NextInv(g, base, run[i - 1], steps[i - 1], run[i]);
    }
  }

  /**
    Reservation, on a log of any size: the list never outgrows the log area or LOGSIZE and holds no block twice,
    "log.committing" and "log_write outside of trans" are out of reach, and so is "too big a transaction" on a log
    area of more than LOGSIZE blocks. An operation may call log_write any number of times while it has logged
    fewer than MAXOPBLOCKS distinct blocks.
   */
  lemma ReservationBound(g: Geometry, base: Disk, run: seq<State>, steps: seq<Step>, i: nat)
    requires IsRun(g, base, run, steps) && i < |run|
    ensures |run[i].lh| <= LOGSIZE && |run[i].lh| < g.size && Distinct(run[i].lh)
    ensures run[i].panic.NoPanic? || (run[i].panic.TooBig? && g.size <= LOGSIZE)
  {
    RunInv(g, base, run, steps, i);
  }

  /**
    Whole operations only. A commit runs with no operation in flight and none is admitted until it is over;
    the records of one operation all carry one transaction number; and a durable record belongs to an
    operation that has ended, so no later write of that operation can follow.
   */
  lemma WholeOperations(g: Geometry, base: Disk, run: seq<State>, steps: seq<Step>, i: nat)
    requires IsRun(g, base, run, steps) && i < |run|
    ensures var s := run[i];
            && (s.committing ==> s.outstanding == 0 && s.ops == map[] && !MayBegin(|s.lh|, s.outstanding, true))
            && (forall r, q :: r in s.past + s.cur && q in s.past + s.cur && r.op == q.op ==> r.txn == q.txn)
            && (forall r :: r in Durable(s) ==> r.op !in s.ops)
  {
    RunInv(g, base, run, steps, i);
  }

  /**
    Durability and atomicity of operations over every run, with any number of earlier crashes:
    crash now, interrupt recovery any number of times, and the recovered home blocks are the original
    ones with exactly the durable records replayed in order. A record is durable if and only if its
    transaction is, so an operation is there as a whole or not at all.
   */
  lemma DurableOperations(g: Geometry, base: Disk, run: seq<State>, steps: seq<Step>, i: nat, js: seq<nat>)
    requires IsRun(g, base, run, steps) && i < |run|
    ensures var s := run[i];
            && GoodHead(g, s.disk) && RecsHome(g, base, Durable(s))
            && SameHome(g, Recover(g, CrashedRecoveries(g, s.disk, js)), Replay(g, base, Durable(s)))
            && (forall r, q :: r in s.past + s.cur && q in s.past + s.cur && r.op == q.op ==>
                 (r in Durable(s) <==> q in Durable(s)))
  {
    RunInv(g, base, run, steps, i);
    CrashRecovers(g, base, run[i], js);
  }

  // ----- calls and blocks -----

  /** How many log_write calls of operation op the records hold. */
  function CallsOf(rs: seq<Rec>, op: nat): nat {
    if rs == [] then 0 else
      CallsOf(rs[..|rs| - 1], op) + if rs[|rs| - 1].op == op then 1 else 0
  }

  lemma CallsNext(rs: seq<Rec>, r: Rec, op: nat)
    ensures CallsOf(rs + [r], op) == CallsOf(rs, op) + if r.op == op then 1 else 0
  {
    assert (rs + [r])[..|rs|] == rs;
  }

  lemma RunCount(g: Geometry, base: Disk, run: seq<State>, steps: seq<Step>, i: nat)
    requires IsRun(g, base, run, steps) && i < |steps|
    ensures InvCount(g, run[i]) && (run[i].phase.Writing? ==> run[i].committing)
    ensures Next(g, run[i], steps[i], run[i + 1])
  {
    RunInv(g, base, run, steps, i);
  }

  lemma CallsStep(g: Geometry, s: State, step: Step, s': State, op: nat)
    requires InvCount(g, s) && (s.phase.Writing? ==> s.committing) && Next(g, s, step, s') && op in s'.ops
    requires op in s.ops ==> |s.ops[op]| <= CallsOf(s.cur, op)
    ensures |s'.ops[op]| <= CallsOf(s'.cur, op)
  {
    if step.LogWrite? && s'.panic.NoPanic? {
      CallsNext(s.cur, Rec(step.op, s.txn, step.block, step.data), op);
    }
  }

  /** A budget of MAXOPBLOCKS calls is one of blocks: an operation with calls left has blocks left. */
  lemma {:induction false} CallsCoverBlocks(g: Geometry, base: Disk, run: seq<State>, steps: seq<Step>, i: nat, op: nat)
    requires IsRun(g, base, run, steps) && i < |run| && op in run[i].ops
    ensures |run[i].ops[op]| <= CallsOf(run[i].cur, op)
  {
    if i > 0 {
      RunCount(g, base, run, steps, i - 1);
      if op in run[i - 1].ops {
        CallsCoverBlocks(g, base, run, steps, i - 1, op);
      }
      CallsStep(g, run[i - 1], steps[i - 1], run[i], op);
    }
  }

  // ----- what holds between operations holds after a crash -----

  /** The disk as the file system sees it, through cache and log. */
  ghost function Logical(g: Geometry, base: Disk, s: State): Disk
    requires RecsHome(g, base, s.past + s.cur)
  {
    Replay(g, base, s.past + s.cur)
  }

  /** The durable records are all the records there were at some moment without an operation in flight. */
  lemma {:induction false} DurableMoment(g: Geometry, base: Disk, run: seq<State>, steps: seq<Step>, i: nat)
    returns (j: nat)
    requires IsRun(g, base, run, steps) && i < |run|
    ensures j <= i && run[j].ops == map[] && run[j].past + run[j].cur == run[i].past
  {
    j := i;
    if i == 0 || steps[i - 1].CommitDone? || steps[i - 1].Crash? {
      if i > 0 {
        assert Next(g, run[i - 1], steps[i - 1], run[i]);
        RunInv(g, base, run, steps, i - 1);
      }
      assert run[i].past + run[i].cur == run[i].past;
    } else {
      assert Next(g, run[i - 1], steps[i - 1], run[i]);
      j := DurableMoment(g, base, run, steps, i - 1);
    }
  }

  /**
    Crash now and interrupt recovery any number of times: the recovered home blocks are those the file system saw at
    some moment of the run at which no operation was in flight.
   */
  lemma RecoveredMoment(g: Geometry, base: Disk, run: seq<State>, steps: seq<Step>, i: nat, js: seq<nat>)
    returns (j: nat)
    requires IsRun(g, base, run, steps) && i < |run|
    ensures j <= i && run[j].ops == map[] && run[j].outstanding == 0 && RecsHome(g, base, run[j].past + run[j].cur)
    ensures GoodHead(g, run[i].disk)
    ensures SameHome(g, Recover(g, CrashedRecoveries(g, run[i].disk, js)), Logical(g, base, run[j]))
  {
    RunInv(g, base, run, steps, i);
    CrashRecovers(g, base, run[i], js);
    if HeaderWritten(run[i]) {
      j := i;
    } else {
      j := DurableMoment(g, base, run, steps, i);
    }
    RunInv(g, base, run, steps, j);
  }

  /** So a property of the home blocks that holds whenever no operation is in flight holds after every crash. */
  lemma CrashKeeps(g: Geometry, base: Disk, run: seq<State>, steps: seq<Step>, i: nat, js: seq<nat>, good: Disk -> bool)
    requires IsRun(g, base, run, steps) && i < |run|
    requires forall d, e :: SameHome(g, d, e) && good(d) ==> good(e)
    requires forall j :: 0 <= j <= i && run[j].outstanding == 0 && RecsHome(g, base, run[j].past + run[j].cur) ==>
               good(Logical(g, base, run[j]))
    ensures GoodHead(g, run[i].disk) && good(Recover(g, CrashedRecoveries(g, run[i].disk, js)))
  {
    var j := RecoveredMoment(g, base, run, steps, i, js);
    var d := Logical(g, base, run[j]);
    assert SameHome(g, d, Recover(g, CrashedRecoveries(g, run[i].disk, js)));
  }

  // ----- the guard in log_write on small logs -----

  /** The blocks among the first k that operation o logs. */
  function Share(g: Geometry, k: nat, o: nat): set<int> {
    Range(g.start + g.size + o * MAXOPBLOCKS, g.start + g.size + Least(k, (o + 1) * MAXOPBLOCKS))
  }

  function Least(a: int, b: int): int { if a <= b then a else b }

  predicate Within(lo: int, b: int, hi: int) { lo <= b < hi }

  function Range(lo: int, hi: int): set<int> { set b: int | lo <= b < hi && Within(lo, b, hi) }

  lemma {:induction false} RangeSize(lo: int, hi: int)
    requires lo <= hi
    ensures |Range(lo, hi)| == hi - lo
    decreases hi - lo
  {
    if lo < hi {
      RangeSize(lo, hi - 1);
      assert Range(lo, hi) == Range(lo, hi - 1) + {hi - 1};
    } else {
      assert Range(lo, hi) == {};
    }
  }

  /** The k-th state of three operations filling the log with fresh blocks. */
  ghost function Filling(g: Geometry, base: Disk, k: nat, data: Block): State
    requires k <= LOGSIZE
  {
    var lh := seq(k, i => g.start + g.size + i);
    State(base, lh, map b | b in Elems(lh) :: data, 3, false,
          map[0 := Share(g, k, 0), 1 := Share(g, k, 1), 2 := Share(g, k, 2)], Quiet, NoPanic, 3, 0, [],
          seq(k, (i: nat) => Rec(i / MAXOPBLOCKS, 0, g.start + g.size + i, data)))
  }

  lemma FillingShare(g: Geometry, k: nat, o: nat)
    requires o == k / MAXOPBLOCKS
    ensures |Share(g, k, o)| == k - o * MAXOPBLOCKS < MAXOPBLOCKS
    ensures Share(g, k + 1, o) == Share(g, k, o) + {g.start + g.size + k}
    ensures forall q: nat :: q != o ==> Share(g, k + 1, q) == Share(g, k, q)
  {
    RangeSize(g.start + g.size + o * MAXOPBLOCKS, g.start + g.size + k);
  }

  lemma FillingOps(g: Geometry, base: Disk, k: nat, data: Block, o: nat)
    requires k < LOGSIZE && o == k / MAXOPBLOCKS
    ensures var s, s' := Filling(g, base, k, data), Filling(g, base, k + 1, data);
            o in s.ops && |s.ops[o]| < MAXOPBLOCKS && s'.ops == s.ops[o := s.ops[o] + {g.start + g.size + k}]
  {
    FillingShare(g, k, o);
    assert 0 <= o < 3;
  }

  lemma FillingLists(g: Geometry, base: Disk, k: nat, data: Block)
    requires k < LOGSIZE
    ensures var s, s', b := Filling(g, base, k, data), Filling(g, base, k + 1, data), g.start + g.size + k;
            && s'.lh == Absorb(s.lh, b) && s'.mem == s.mem[b := data]
            && s'.cur == s.cur + [Rec(k / MAXOPBLOCKS, 0, b, data)]
  {
    var s, s', b := Filling(g, base, k, data), Filling(g, base, k + 1, data), g.start + g.size + k;
    assert s'.lh == s.lh + [b] && b !in s.lh;
    assert s'.mem == s.mem[b := data];
    assert s'.cur == s.cur + [Rec(k / MAXOPBLOCKS, 0, b, data)];
  }

  lemma FillingNext(g: Geometry, base: Disk, k: nat, data: Block)
    requires Fits(g, base) && k < LOGSIZE && k < g.size - 1 && g.start + g.size + k < |base|
    ensures Next(g, Filling(g, base, k, data), LogWrite(k / MAXOPBLOCKS, g.start + g.size + k, data),
                 Filling(g, base, k + 1, data))
  {
    FillingOps(g, base, k, data, k / MAXOPBLOCKS);
    FillingLists(g, base, k, data);
  }

  /** One call more than the log area has room for. */
  lemma FillingPanics(g: Geometry, base: Disk, k: nat, data: Block)
    requires Fits(g, base) && k == g.size - 1 < LOGSIZE && g.start + g.size + k < |base|
    ensures var s := Filling(g, base, k, data);
            Next(g, s, LogWrite(k / MAXOPBLOCKS, g.start + g.size + k, data), s.(panic := TooBig))
  {
    FillingOps(g, base, k, data, k / MAXOPBLOCKS);
  }

  lemma OneStepMore(g: Geometry, base: Disk, run: seq<State>, steps: seq<Step>, s: State, step: Step)
    returns (run': seq<State>, steps': seq<Step>)
    requires IsRun(g, base, run, steps) && Next(g, run[|run| - 1], step, s)
    ensures IsRun(g, base, run', steps') && run'[|run'| - 1] == s
  {
    run', steps' := run + [s], steps + [step];
  }

  lemma FillingStart(g: Geometry, base: Disk, data: Block) returns (run: seq<State>, steps: seq<Step>)
    requires GoodHead(g, base) && Head(g, base) == []
    ensures IsRun(g, base, run, steps) && run[|run| - 1] == Filling(g, base, 0, data)
  {
    var s0 := State(base, [], map[], 0, false, map[], Quiet, NoPanic, 0, 0, [], []);
    var s1 := s0.(outstanding := 1, ops := map[0 := {}], nextOp := 1);
    var s2 := s1.(outstanding := 2, ops := map[0 := {}, 1 := {}], nextOp := 2);
    var s3 := s2.(outstanding := 3, ops := map[0 := {}, 1 := {}, 2 := {}], nextOp := 3);
    run, steps := [s0, s1, s2, s3], [Begin, Begin, Begin];
    assert Share(g, 0, 0) == Share(g, 0, 1) == Share(g, 0, 2) == {};
    assert s3 == Filling(g, base, 0, data);
  }

  lemma {:induction false} FillingRun(g: Geometry, base: Disk, k: nat, data: Block)
    returns (run: seq<State>, steps: seq<Step>)
    requires GoodHead(g, base) && Head(g, base) == [] && k <= LOGSIZE && k <= g.size - 1
    requires g.start + 2 * g.size <= |base|
    ensures IsRun(g, base, run, steps) && run[|run| - 1] == Filling(g, base, k, data)
  {
    if k == 0 {
      run, steps := FillingStart(g, base, data);
    } else {
      run, steps := FillingRun(g, base, k - 1, data);
      FillingNext(g, base, k - 1, data);
      run, steps := OneStepMore(g, base, run, steps, Filling(g, base, k, data),
                                LogWrite((k - 1) / MAXOPBLOCKS, g.start + g.size + k - 1, data));
    }
  }

  /**
    The bound is exact: on a disk with room for that many home blocks, "too big a transaction" can be
    reached by operations that keep to MAXOPBLOCKS blocks if and only if the log has at most LOGSIZE
    blocks. An image made by mkfs has exactly LOGSIZE.
   */
  lemma PanicReachableExactly(g: Geometry, base: Disk)
    requires GoodHead(g, base) && Head(g, base) == [] && g.start + 2 * g.size <= |base|
    ensures (exists run: seq<State>, steps :: IsRun(g, base, run, steps) && run[|run| - 1].panic.TooBig?)
       <==> g.size <= LOGSIZE
  {
    if g.size <= LOGSIZE {
      var k, data := g.size - 1, seq(WORDS, _ => 0);
      var run, steps := FillingRun(g, base, k, data);
      FillingPanics(g, base, k, data);
      run, steps := OneStepMore(g, base, run, steps, Filling(g, base, k, data).(panic := TooBig),
                                LogWrite(k / MAXOPBLOCKS, g.start + g.size + k, data));
    } else {
      forall run: seq<State>, steps | IsRun(g, base, run, steps) ensures !run[|run| - 1].panic.TooBig? {
        ReservationBound(g, base, run, steps, |run| - 1);
      }
    }
  }

  lemma LoggedSize(g: Geometry, base: Disk, s: State)
    requires Inv(g, base, s)
    ensures |s.mem| == |s.lh| < g.size && |s.mem| <= LOGSIZE && forall b :: b in s.mem ==> !InLog(g, b)
  {
    ElemsSize(s.lh);
    assert |s.mem| == |s.mem.Keys|;
  }

  /** All LOGSIZE slots can be taken, and that many buffers pinned, if and only if the log is larger than LOGSIZE. */
  lemma FullLogReachableExactly(g: Geometry, base: Disk)
    requires GoodHead(g, base) && Head(g, base) == [] && g.start + 2 * g.size <= |base|
    ensures (exists run: seq<State>, steps :: IsRun(g, base, run, steps) && |run[|run| - 1].mem| == LOGSIZE)
       <==> g.size > LOGSIZE
  {
    if g.size > LOGSIZE {
      var data := seq(WORDS, _ => 0);
      var run, steps := FillingRun(g, base, LOGSIZE, data);
      var s := run[|run| - 1];
      ElemsSize(s.lh);
      assert s.mem.Keys == Elems(s.lh);
    }
    forall run: seq<State>, steps | IsRun(g, base, run, steps) ensures |run[|run| - 1].mem| < g.size {
      RunInv(g, base, run, steps, |run| - 1);
      LoggedSize(g, base, run[|run| - 1]);
    }
  }
}
