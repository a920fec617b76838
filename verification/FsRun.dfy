/**
  Whole runs of file operations, from the image mkfs lays out before it writes the first file. The inodes' files are at
  every moment what a map from inode numbers to bytes would hold, and no disk block is lost or owned twice.
 */
module FsRun {
  import opened FsBytes
  import opened FsBlocks
  import opened FsInode
  import opened FsFile
  import opened FsDir
  import opened FsBudget
  import L = LogSpec
  import P = LogProtocol

  type Offset = x: nat | x < WRAP

  type Flat = map<nat, seq<Byte>>

  datatype Op =
    | Read(n: nat, off: Offset, cnt: Offset)
    | Write(n: nat, src: seq<Byte>, off: Offset)
    | Trunc(n: nat)
    | Link(n: nat, name: seq<Byte>, inum: nat)

  datatype Answer = NoInode | NotDir | Done | Data(bytes: seq<Byte>) | Wrote(ret: int, off: nat) | Linked(ok: bool)

  /** The files of a state, as bytes. */
  ghost function FlatOf(g: Geometry, st: State): Flat
    requires Files(g, st)
  {
    map n | n in st.inodes :: assert IsFile(st, n); Contents(st, n)
  }

  /** What an operation does to the bytes c of its file, and what it answers. */
  ghost predicate OnFile(op: Op, c: seq<Byte>, a: Answer, c': seq<Byte>) {
    match op
    case Read(_, off, cnt) =>
      && c' == c
      && a == Data(if off > |c| || off + cnt >= WRAP then [] else c[off..Min(off + cnt, |c|)])
    case Write(_, src, off) =>
      && a.Wrote? && off <= a.off <= off + |src| && a.ret == (if a.off == off + |src| then |src| else -1)
      && (off > |c| ==> a.off == off)
      && c' == if off > |c| then c else Splice(c, off, src[..a.off - off])
    case Trunc(_) => a == Done && c' == []
    case Link(_, name, inum) =>
      if |c| % ENTRY != 0 then a == NotDir && c' == c
      else
        && a.Linked? && |c'| % ENTRY == 0 && (Cut(name, DIRSIZ) in Dir(c) ==> !a.ok)
        && Dir(c') == if a.ok then FsDir.Link(Dir(c), Cut(name, DIRSIZ), inum) else Dir(c)
  }

  /** Only the operation's own file changes. */
  ghost predicate Effect(op: Op, m: Flat, a: Answer, m': Flat) {
    && m'.Keys == m.Keys && (forall x :: x in m && x != op.n ==> m'[x] == m[x])
    && if op.n in m then OnFile(op, m[op.n], a, m'[op.n]) else a == NoInode && m' == m
  }

  lemma OneFile(g: Geometry, st: State, st': State, op: Op, a: Answer)
    requires Files(g, st) && Files(g, st') && OthersKept(st, st', op.n) && op.n in st.inodes
    requires IsFile(st, op.n) && IsFile(st', op.n) && OnFile(op, Contents(st, op.n), a, Contents(st', op.n))
    ensures Effect(op, FlatOf(g, st), a, FlatOf(g, st'))
  {
    var m, m' := FlatOf(g, st), FlatOf(g, st');
    forall x | x in m && x != op.n
      ensures m'[x] == m[x]
    {
      assert IsFile(st, x);
    }
  }

  lemma NoFile(g: Geometry, st: State, st': State, op: Op)
    requires Files(g, st) && st' == st && op.n !in st.inodes
    ensures Effect(op, FlatOf(g, st), NoInode, FlatOf(g, st'))
  {}

  method PerformWrite(fs: Inodes, n: nat, src: seq<Byte>, off: Offset) returns (a: Answer)
    requires Files(fs.disk.g, fs.St()) && n in fs.inodes
    modifies fs, fs.disk
    ensures Files(fs.disk.g, fs.St())
    ensures Effect(Write(n, src, off), old(FlatOf(fs.disk.g, fs.St())), a, FlatOf(fs.disk.g, fs.St()))
  {
    ghost var st := fs.St();
    var ret, off', _, _ := FileWrite(fs, n, src, off);
    a := Wrote(ret, off');
    OneFile(fs.disk.g, st, fs.St(), Write(n, src, off), a);
  }

  method PerformLink(fs: Inodes, n: nat, name: seq<Byte>, inum: nat) returns (a: Answer)
    requires Files(fs.disk.g, fs.St()) && n in fs.inodes
    modifies fs, fs.disk
    ensures Files(fs.disk.g, fs.St())
    ensures Effect(Link(n, name, inum), old(FlatOf(fs.disk.g, fs.St())), a, FlatOf(fs.disk.g, fs.St()))
  {
    ghost var st := fs.St();
    assert IsFile(st, n);
    a := NotDir;
    if fs.inodes[n].size % ENTRY == 0 {
      var ok := LinkOp(fs, n, name, inum);
      a := Linked(ok);
    }
    OneFile(fs.disk.g, st, fs.St(), Link(n, name, inum), a);
  }

  /** One operation. */
  method Perform(fs: Inodes, op: Op) returns (a: Answer)
    requires Files(fs.disk.g, fs.St())
    modifies fs, fs.disk
    ensures Files(fs.disk.g, fs.St())
    ensures Effect(op, old(FlatOf(fs.disk.g, fs.St())), a, FlatOf(fs.disk.g, fs.St()))
  {
    ghost var st := fs.St();
    if op.n !in fs.inodes {
      NoFile(fs.disk.g, st, fs.St(), op);
      return NoInode;
    }
    match op
    case Read(n, off, cnt) =>
      var dst := Readi(fs, n, off, cnt);
      a := Data(dst);
      OneFile(fs.disk.g, st, fs.St(), op, a);
    case Write(n, src, off) =>
      a := PerformWrite(fs, n, src, off);
    case Trunc(n) =>
      assert IsFile(st, n);
      TruncOp(fs, n);
      a := Done;
      OneFile(fs.disk.g, st, fs.St(), op, a);
    case Link(n, name, inum) =>
      a := PerformLink(fs, n, name, inum);
  }

  /** Each answer, and each state of the files, is that of the operation before it. */
  ghost predicate IsTrace(ops: seq<Op>, answers: seq<Answer>, trace: seq<Flat>) {
    && |answers| == |ops| && |trace| == |ops| + 1
    && forall i :: 0 <= i < |ops| ==> Effect(ops[i], trace[i], answers[i], trace[i + 1])
  }

  lemma TraceNext(ops: seq<Op>, answers: seq<Answer>, trace: seq<Flat>, i: nat, a: Answer, m: Flat)
    requires i < |ops| && IsTrace(ops[..i], answers, trace) && Effect(ops[i], trace[i], a, m)
    ensures IsTrace(ops[..i + 1], answers + [a], trace + [m])
  {
    forall j | 0 <= j < i + 1
      ensures Effect(ops[..i + 1][j], (trace + [m])[j], (answers + [a])[j], (trace + [m])[j + 1])
    {
      assert j < i ==> Effect(ops[..i][j], trace[j], answers[j], trace[j + 1]);
    }
  }

  /** Any sequence of operations, on any inodes there are or not. */
  method Run(fs: Inodes, ops: seq<Op>) returns (answers: seq<Answer>, ghost trace: seq<Flat>)
    requires Files(fs.disk.g, fs.St())
    modifies fs, fs.disk
    ensures Files(fs.disk.g, fs.St()) && IsTrace(ops, answers, trace)
    ensures trace[0] == old(FlatOf(fs.disk.g, fs.St())) && trace[|ops|] == FlatOf(fs.disk.g, fs.St())
  {
    answers, trace := [], [FlatOf(fs.disk.g, fs.St())];
    for i := 0 to |ops|
      invariant Files(fs.disk.g, fs.St()) && IsTrace(ops[..i], answers, trace)
      invariant trace[0] == old(FlatOf(fs.disk.g, fs.St())) && trace[i] == FlatOf(fs.disk.g, fs.St())
    {
      var a := Perform(fs, ops[i]);
      TraceNext(ops, answers, trace, i, a, FlatOf(fs.disk.g, fs.St()));
      answers, trace := answers + [a], trace + [FlatOf(fs.disk.g, fs.St())];
    }
    assert ops[..|ops|] == ops;
  }

  // ---------------------------------------------------------------- the image to start from

  /** A geometry mkfs can make: the free map before the data blocks, whose start its first block covers. */
  ghost predicate Makeable(g: Geometry) {
    0 < g.first <= g.size < 0x1_0000_0000 && g.first < BPB && MapBlock(g, g.size - 1) < g.first
  }

  lemma {:induction false} NoBits(k: nat)
    ensures !BitOf(0, k)
  {
    if k > 0 {
      NoBits(k - 1);
    }
  }

  /** mkfs writes a zeroed block everywhere first: nothing is in use. */
  method Zeroes(g: Geometry) returns (data: Data)
    requires Makeable(g)
    ensures Layout(g, data) && forall b: nat {:trigger Used(g, data, b)} :: b < g.size ==> !Used(g, data, b)
  {
    data := map[];
    for i := 0 to g.size
      invariant forall b: nat {:trigger b in data} :: b < i ==> b in data && data[b] == Zero()
    {
      data := data[i := Zero()];
    }
    forall b: nat | b < g.size
      ensures !Used(g, data, b)
    {
      MapIsMetadata(g, data, b);
      NoBits(MapBit(b));
    }
  }

  /** mkfs's balloc: the free map says that the first blocks are in use, and no other. */
  method MarkFirst(g: Geometry) returns (data: Data)
    requires Makeable(g)
    ensures Layout(g, data)
    ensures forall b: nat {:trigger Used(g, data, b)} :: b < g.size ==> (Used(g, data, b) <==> b < g.first)
  {
    data := Zeroes(g);
    for i := 0 to g.first
      invariant Layout(g, data)
      invariant forall b: nat {:trigger Used(g, data, b)} :: b < g.size ==> (Used(g, data, b) <==> b < i)
    {
      MapIsMetadata(g, data, i);
      ghost var was := data;
      data := Mark(g, data, i);
      forall b: nat | b < g.size
        ensures Used(g, data, b) <==> b < i + 1
      {
        UsedAfterMark(g, was, i, b);
      }
    }
  }

  lemma NothingOwned(g: Geometry, st: State)
    requires Layout(g, st.data) && st.owner == map[] && st.dead == {}
    requires forall b: nat {:trigger Used(g, st.data, b)} :: b < g.size ==> (Used(g, st.data, b) <==> b < g.first)
    requires forall n {:trigger st.inodes[n]} :: n in st.inodes ==> st.inodes[n] == Inode(NoAddrs(), 0)
    ensures Files(g, st) && forall n :: n in st.inodes ==> IsFile(st, n) && Contents(st, n) == []
  {
    forall s
      ensures Owns(g, st, s)
    {}
  }

  /** The image with these inodes, all of them empty. */
  method Mkfs(g: Geometry, inums: set<nat>) returns (fs: Inodes)
    requires Makeable(g)
    ensures fresh(fs) && fresh(fs.disk) && fs.disk.g == g && Files(g, fs.St())
    ensures fs.inodes.Keys == inums && FlatOf(g, fs.St()) == map n | n in inums :: []
  {
    var data := MarkFirst(g);
    var disk := new Disk(g, data);
    fs := new Inodes(disk, map n | n in inums :: Inode(NoAddrs(), 0), map[]);
    NothingOwned(g, fs.St());
  }

  /** Every block is metadata, free, or named by one slot: no two slots name a block, no used block is lost. */
  ghost predicate EachOnce(g: Geometry, st: State) {
    && (forall s, t :: IsSlot(st, s) && IsSlot(st, t) && Addr(st, s) == Addr(st, t) != 0 ==> s == t)
    && (forall s :: IsSlot(st, s) && Addr(st, s) != 0 ==> g.first <= Addr(st, s) < g.size)
    && (forall b: nat :: b < g.size ==>
          (Used(g, st.data, b) <==> b < g.first || exists s :: IsSlot(st, s) && Addr(st, s) == b))
  }

  lemma OwnedOnce(g: Geometry, st: State)
    requires Inv(g, st)
    ensures EachOnce(g, st)
  {
    forall s, t | IsSlot(st, s) && IsSlot(st, t) && Addr(st, s) == Addr(st, t) != 0
      ensures s == t
    {
      assert Owns(g, st, s) && Owns(g, st, t);
    }
    forall s | IsSlot(st, s) && Addr(st, s) != 0
      ensures g.first <= Addr(st, s) < g.size
    {
      assert Owns(g, st, s);
    }
    forall b: nat | b < g.size
      ensures Used(g, st.data, b) <==> b < g.first || exists s :: IsSlot(st, s) && Addr(st, s) == b
    {
      assert Accounted(g, st, b) && Owned(g, st, b);
      forall s | IsSlot(st, s) && Addr(st, s) == b && b >= g.first
        ensures b in st.owner
      {
        assert Owns(g, st, s);
      }
    }
  }

  /** From mkfs's image on, whatever is done: the files are those of the map, and every block is accounted for once. */
  method Always(g: Geometry, inums: set<nat>, ops: seq<Op>)
    returns (fs: Inodes, answers: seq<Answer>, ghost trace: seq<Flat>)
    requires Makeable(g)
    ensures fs.disk.g == g && Files(g, fs.St()) && EachOnce(g, fs.St())
    ensures IsTrace(ops, answers, trace) && trace[0] == (map n | n in inums :: []) && trace[|ops|] == FlatOf(g, fs.St())
  {
    fs := Mkfs(g, inums);
    answers, trace := Run(fs, ops);
    OwnedOnce(g, fs.St());
  }

  // ---------------------------------------------------------------- after a crash

  /** The files that a disk holds, under some assignment of owners. */
  ghost predicate Holds(g: Geometry, st: State) {
    exists owner :: Files(g, State(st.data, st.inodes, owner, {}))
  }

  /**
    However blocks and inodes are read off the home blocks: if they make up files in each moment of a run of the log's
    protocol at which no operation is under way, they do so on the disk that any recovery leaves.
   */
  lemma RecoveredFiles(g: Geometry, lg: L.Geometry, base: L.Disk, run: seq<P.State>, steps: seq<P.Step>, i: nat,
                       js: seq<nat>, read: L.Disk -> State)
    requires P.IsRun(lg, base, run, steps) && i < |run|
    requires forall d, e :: L.SameHome(lg, d, e) ==> read(d) == read(e)
    requires forall j :: 0 <= j <= i && run[j].outstanding == 0 && P.RecsHome(lg, base, run[j].past + run[j].cur) ==>
                 Holds(g, read(P.Logical(lg, base, run[j])))
    ensures L.GoodHead(lg, run[i].disk)
    ensures Holds(g, read(L.Recover(lg, L.CrashedRecoveries(lg, run[i].disk, js))))
  {
    P.CrashKeeps(lg, base, run, steps, i, js, d => Holds(g, read(d)));
  }
}
