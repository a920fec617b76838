/**
  The logging layer as the kernel runs it: one log object, a disk reached one block write
  at a time, and the pinned buffers of the current transaction.

  `trace` records every block write in order, so that the states a crash can expose are
  exactly the prefixes of the trace.
 */
module Log {
  import opened LogSpec

  datatype Panic = NoPanic | TooBig | OutsideTrans | Committing

  /** log_write's list after a call for block b: absorbed when present, appended otherwise. */
  function Absorb(lh: seq<int>, b: int): seq<int> {
    if b in lh then lh else lh + [b]
  }

  function Elems(lh: seq<int>): set<int> {
    set b | b in lh
  }

  lemma ElemsNext(lh: seq<int>, i: nat)
    requires i < |lh|
    ensures Elems(lh[..i + 1]) == Elems(lh[..i]) + {lh[i]}
  {
    assert lh[..i + 1] == lh[..i] + [lh[i]];
  }

  predicate Distinct(lh: seq<int>) {
    forall i, j :: 0 <= i < j < |lh| ==> lh[i] != lh[j]
  }

  lemma {:induction false} ElemsSize(lh: seq<int>)
    requires Distinct(lh)
    ensures |Elems(lh)| == |lh|
  {
    if lh != [] {
      var n := |lh| - 1;
      ElemsSize(lh[..n]);
      ElemsNext(lh, n);
      assert lh[..n + 1] == lh;
    }
  }

  /** begin_op's admission test; the same test in every interleaving. */
  predicate MayBegin(n: int, outstanding: int, committing: bool) {
    !committing && n + (outstanding + 1) * MAXOPBLOCKS <= LOGSIZE
  }

  /** log_write's two tests, in their order. */
  function LogWritePanic(g: Geometry, n: int, outstanding: int): Panic {
    if n >= LOGSIZE || n >= g.size - 1 then TooBig else if outstanding < 1 then OutsideTrans else NoPanic
  }

  function EndOpPanic(committing: bool): Panic {
    if committing then Committing else NoPanic
  }

  /** The four parts of commit put together. */
  lemma CommitTrace(g: Geometry, d: Disk, lh: seq<int>, mem: map<int, Block>, e: Disk, d1: Disk, e1: Disk,
                    t: seq<Write>)
    requires Fits(g, d) && GoodList(g, d, lh) && lh != [] && forall i :: 0 <= i < |lh| ==> lh[i] in mem
    requires InRange(d, WriteLogPlan(g, lh, mem)) && e == Apply(d, WriteLogPlan(g, lh, mem))
    requires d1 == e[g.start := HeadWrite(g, e, lh).data]
    requires e1 == Apply(d1, InstallPlan(g, d1, lh))
    ensures Apply(d, CommitPlan(g, d, lh, mem)) == e1[g.start := HeadWrite(g, e1, []).data]
    ensures t + CommitPlan(g, d, lh, mem)
         == t + WriteLogPlan(g, lh, mem) + [HeadWrite(g, e, lh)] + InstallPlan(g, d1, lh) + [HeadWrite(g, e1, [])]
  {
    CommitInParts(g, d, lh, mem);
  }

  class Log {
    const g: Geometry
    var disk: Disk
    var pinned: map<int, Block>
    var n: nat
    const block: array<int>
    var outstanding: int
    var committing: bool
    ghost var trace: seq<Write>

    ghost predicate Valid()
      reads this, block
    {
      && Fits(g, disk)
      && block.Length == LOGSIZE && n <= LOGSIZE
      && GoodList(g, disk, block[..n])
      && forall b :: b in pinned ==> IsHome(g, disk, b)
    }

    /** initlog before recovery: an empty in-memory header and a cold cache. */
    constructor (g: Geometry, disk: Disk)
      requires Fits(g, disk)
      ensures Valid() && this.g == g && this.disk == disk && n == 0 && pinned == map[]
      ensures outstanding == 0 && !committing && trace == [] && fresh(block)
    {
      this.g, this.disk, this.pinned, this.n := g, disk, map[], 0;
      this.outstanding, this.committing, this.trace := 0, false, [];
      this.block := new int[LOGSIZE];
    }

    /** bread, by the transparency of the buffer cache. */
    function Bread(b: int): Block
      requires 0 <= b < |disk|
      reads this
    {
      if b in pinned then pinned[b] else disk[b]
    }

    method Bwrite(b: int, data: Block)
      requires 0 <= b < |disk|
      modifies this`disk, this`pinned, this`trace
      ensures disk == old(disk)[b := data] && trace == old(trace) + [Write(b, data)]
      ensures pinned == if b in old(pinned) then old(pinned)[b := data] else old(pinned)
    {
      disk := disk[b := data];
      if b in pinned {
        pinned := pinned[b := data];
      }
      trace := trace + [Write(b, data)];
    }

    /** One turn of install_trans: a logged block is copied home, and unpinned after a commit. */
    method InstallOne(tail: nat, recovering: bool)
      requires Valid() && tail < n && (recovering ==> pinned == map[])
      modifies this`disk, this`pinned, this`trace
      ensures Valid() && pinned == if recovering then map[] else old(pinned) - {block[tail]}
      ensures disk == old(disk)[block[tail] := old(disk)[g.start + tail + 1]]
      ensures trace == old(trace) + [Write(block[tail], old(disk)[g.start + tail + 1])]
    {
      assert block[tail] == block[..n][tail];
      var lbuf := Bread(g.start + tail + 1);
      Bwrite(block[tail], lbuf);
      if !recovering {
        pinned := pinned - {block[tail]};
      }
    }

    method InstallTrans(recovering: bool)
      requires Valid() && (recovering ==> pinned == map[])
      modifies this`disk, this`pinned, this`trace
      ensures Valid()
      ensures var plan := InstallPlan(g, old(disk), old(block[..n]));
              disk == Apply(old(disk), plan) && trace == old(trace) + plan
      ensures pinned == old(pinned) - Elems(old(block[..n]))
    {
      ghost var d, lh := disk, block[..n];
      ghost var plan := InstallPlan(g, d, lh);
      var tail := 0;
      assert plan[..0] == [];
      while tail < n
        invariant 0 <= tail <= n && block[..n] == lh && Valid() && |disk| == |d|
        invariant disk == Apply(d, plan[..tail]) && trace == old(trace) + plan[..tail]
        invariant !recovering ==> pinned == old(pinned) - Elems(lh[..tail])
        invariant recovering ==> pinned == map[]
      {
        ApplyUntouched(d, plan[..tail], g.start + tail + 1);
        InstallOne(tail, recovering);
        ApplyNext(d, plan, tail);
        ElemsNext(lh, tail);
        tail := tail + 1;
      }
      assert plan[..n] == plan && lh[..n] == lh;
    }

    method ReadHead()
      requires GoodHead(g, disk) && block.Length == LOGSIZE && g.start !in pinned
      modifies this`n, block
      ensures n <= LOGSIZE && block[..n] == Head(g, disk)
    {
      var lh := Bread(g.start);
      n := lh[0];
      var i := 0;
      while i < n
        invariant 0 <= i <= n <= LOGSIZE && n == lh[0]
        invariant forall k :: 0 <= k < i ==> block[k] == lh[1 + k]
      {
        block[i] := lh[1 + i];
        i := i + 1;
      }
    }

    method WriteHead()
      requires Valid()
      modifies this`disk, this`pinned, this`trace
      ensures Valid() && pinned == old(pinned)
      ensures var w := HeadWrite(g, old(disk), block[..n]);
              disk == old(disk)[w.addr := w.data] && trace == old(trace) + [w]
    {
      var hb := Bread(g.start);
      ghost var prior := hb;
      hb := hb[0 := n];
      var i := 0;
      while i < n
        invariant 0 <= i <= n && |hb| == WORDS && hb[0] == n
        invariant hb[1..1 + i] == block[..i] && hb[1 + i..] == prior[1 + i..]
      {
        hb := hb[1 + i := block[i]];
        i := i + 1;
      }
      assert hb == HeaderBlock(prior, block[..n]);
      Bwrite(g.start, hb);
    }

    method RecoverFromLog()
      requires Valid() && GoodHead(g, disk) && pinned == map[]
      modifies this`disk, this`pinned, this`trace, this`n, block
      ensures Valid() && n == 0 && pinned == map[]
      ensures disk == Recover(g, old(disk)) && trace == old(trace) + RecoveryPlan(g, old(disk))
    {
      ghost var d := disk;
      ReadHead();
      InstallTrans(true);
      ghost var e := disk;
      ghost var plan := InstallPlan(g, d, Head(g, d));
      assert e[g.start] == d[g.start] by { ApplyUntouched(d, plan, g.start); }
      n := 0;
      WriteHead();
      assert block[..n] == [];
      ApplyAppend(d, plan, [HeadWrite(g, d, [])]);
    }

    method WriteLog()
      requires Valid() && forall i :: 0 <= i < n ==> block[i] in pinned
      modifies this`disk, this`pinned, this`trace
      ensures Valid() && pinned == old(pinned)
      ensures var plan := WriteLogPlan(g, block[..n], old(pinned));
              InRange(old(disk), plan) && disk == Apply(old(disk), plan) && trace == old(trace) + plan
    {
      ghost var d := disk;
      ghost var plan := WriteLogPlan(g, block[..n], pinned);
      var tail := 0;
      assert plan[..0] == [];
      while tail < n
        invariant 0 <= tail <= n && Valid() && |disk| == |d| && pinned == old(pinned)
        invariant InRange(d, plan)
        invariant disk == Apply(d, plan[..tail]) && trace == old(trace) + plan[..tail]
      {
        var from := Bread(block[tail]);
        Bwrite(g.start + tail + 1, from);
        ApplyNext(d, plan, tail);
        tail := tail + 1;
      }
      assert plan[..n] == plan;
    }

    /** The exact writes of a commit, in order; CrashAtomicity covers every prefix of them. */
    method Commit()
      requires Valid() && pinned.Keys == Elems(block[..n])
      modifies this`disk, this`pinned, this`trace, this`n
      ensures Valid() && n == 0 && pinned == map[]
      ensures var plan := CommitPlan(g, old(disk), old(block[..n]), old(pinned));
              disk == Apply(old(disk), plan) && trace == old(trace) + plan
    {
      ghost var d, lh, mem, t := disk, block[..n], pinned, trace;
      if n > 0 {
        WriteLog();
        ghost var e := disk;
        WriteHead();
        ghost var d1 := disk;
        InstallTrans(false);
        ghost var e1 := disk;
        n := 0;
        assert block[..n] == [];
        WriteHead();
        CommitTrace(g, d, lh, mem, e, d1, e1, t);
        assert pinned == map[];
      } else {
        assert lh == [] && t + [] == t;
      }
    }

    method LogWrite(b: int, data: Block) returns (panic: Panic)
      requires Valid() && IsHome(g, disk, b) && Distinct(block[..n])
      modifies this`n, this`pinned, block
      ensures Valid() && Distinct(block[..n]) && panic == LogWritePanic(g, old(n), outstanding)
      ensures panic.NoPanic? ==> block[..n] == Absorb(old(block[..n]), b) && pinned == old(pinned)[b := data]
      ensures !panic.NoPanic? ==> n == old(n) && block[..] == old(block[..]) && pinned == old(pinned)
    {
      if n >= LOGSIZE || n >= g.size - 1 {
        return TooBig;
      }
      if outstanding < 1 {
        return OutsideTrans;
      }
      ghost var lh := block[..n];
      var i := 0;
      while i < n && block[i] != b
        invariant 0 <= i <= n && b !in lh[..i]
      {
        i := i + 1;
      }
      block[i] := b;
      if i == n {
        n := n + 1;
      }
      pinned := pinned[b := data];
      assert block[..n] == Absorb(lh, b);
      return NoPanic;
    }

    /** One pass of begin_op's loop under log.lock: either the operation is admitted or it sleeps. */
    method BeginOpPass() returns (admitted: bool)
      modifies this`outstanding
      ensures admitted <==> MayBegin(n, old(outstanding), committing)
      ensures outstanding == old(outstanding) + if admitted then 1 else 0
    {
      if committing {
        admitted := false;
      } else if n + (outstanding + 1) * MAXOPBLOCKS > LOGSIZE {
        admitted := false;
      } else {
        outstanding := outstanding + 1;
        admitted := true;
      }
    }

    method EndOp() returns (panic: Panic, didCommit: bool)
      requires Valid() && pinned.Keys == Elems(block[..n])
      modifies this`disk, this`pinned, this`trace, this`n, this`outstanding, this`committing
      ensures Valid() && outstanding == old(outstanding) - 1
      ensures panic == EndOpPanic(old(committing))
      ensures didCommit <==> panic.NoPanic? && outstanding == 0
      ensures !didCommit ==> disk == old(disk) && pinned == old(pinned) && n == old(n) && trace == old(trace)
      ensures didCommit ==>
                var plan := CommitPlan(g, old(disk), old(block[..n]), old(pinned));
                disk == Apply(old(disk), plan) && trace == old(trace) + plan && n == 0 && pinned == map[]
      ensures committing == old(committing)
    {
      didCommit := false;
      outstanding := outstanding - 1;
      if committing {
        return Committing, false;
      }
      if outstanding == 0 {
        didCommit := true;
        committing := true;
      }
      if didCommit {
        Commit();
        committing := false;
      }
      return NoPanic, didCommit;
    }
  }
}
