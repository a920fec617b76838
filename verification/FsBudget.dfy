/**
  What the file system's operations log, against what begin_op reserves for each of them: MAXOPBLOCKS blocks, which
  LogProtocol shows to be enough as long as an operation that still calls log_write has logged fewer.
 */
module FsBudget {
  import opened FsBytes
  import opened FsBlocks
  import opened FsInode
  import opened FsFile
  import opened FsDir
  import L = LogSpec
  import Log
  import P = LogProtocol

  /** What filewrite gives to one writei at most. */
  const CHUNK := (L.MAXOPBLOCKS - 1 - 1 - 2) / 2 * BSIZE

  function MapBlocks(g: Geometry): nat { if g.bmapstart <= g.first then g.first - g.bmapstart else 0 }

  lemma {:induction false} RangeBound(a: set<nat>, lo: nat, hi: nat)
    requires lo <= hi && forall x :: x in a ==> lo <= x < hi
    ensures |a| <= hi - lo
    decreases hi
  {
    if lo == hi {
      assert a == {};
    } else {
      RangeBound(a - {hi - 1}, lo, hi - 1);
    }
  }

  /** An operation's distinct logged blocks, from what its parts promise. */
  lemma LoggedSize(g: Geometry, l: set<nat>, ds: set<nat>)
    requires Logs(g, {}, l, ds)
    ensures |l| <= |ds| + MapBlocks(g)
  {
    var maps := l - ds;
    if g.bmapstart <= g.first {
      RangeBound(maps, g.bmapstart, g.first);
    } else {
      assert maps == {};
    }
    assert l <= ds + maps;
    SubsetBound(l, ds + maps);
  }

  lemma {:induction false} SubsetBound<T>(a: set<T>, b: set<T>)
    requires a <= b
    ensures |a| <= |b|
  {
    if a != {} {
      var x :| x in a;
      SubsetBound(a - {x}, b - {x});
    }
  }

  /** Unaligned or not, a chunk lies in at most four blocks. */
  lemma ChunkBlocks(off: nat, len: nat)
    requires len <= CHUNK
    ensures BlockCount(off, len) <= 4
  {
    if len > 0 {
      assert (off + len - 1) / BSIZE <= (off + 3 * BSIZE) / BSIZE;
      assert (off + 3 * BSIZE) / BSIZE == off / BSIZE + 3;
    }
  }

  /** What one transaction of filewrite answers. */
  ghost predicate Wrote(st: State, st': State, n: nat, off: nat, src: seq<Byte>, r: int) {
    && n in st.inodes && n in st'.inodes && IsFile(st, n) && IsFile(st', n) && OthersKept(st, st', n)
    && -1 <= r <= |src| && (r == -1 ==> st' == st) && (off > |Contents(st, n)| ==> r == -1)
    && (r != -1 ==> Contents(st', n) == Splice(Contents(st, n), off, src[..r]) && off + r <= MAXFILE * BSIZE)
  }

  /** One transaction of filewrite: at most five blocks besides the free map, and the inode's block in iupdate. */
  method WriteOp(fs: Inodes, n: nat, src: seq<Byte>, off: nat) returns (r: int)
    requires Files(fs.disk.g, fs.St()) && n in fs.inodes && off < WRAP && |src| <= CHUNK
    modifies fs, fs.disk
    ensures Files(fs.disk.g, fs.St()) && Wrote(old(fs.St()), fs.St(), n, off, src, r)
    ensures |fs.disk.logged| <= 5 + MapBlocks(fs.disk.g)
  {
    fs.disk.logged := {};
    ghost var ds;
    r, ds := Writei(fs, n, src, off);
    ChunkBlocks(off, |src|);
    LoggedSize(fs.disk.g, fs.disk.logged, ds);
  }

  lemma OthersKeptTwice(st: State, st1: State, st2: State, n: nat)
    requires OthersKept(st, st1, n) && OthersKept(st1, st2, n)
    ensures OthersKept(st, st2, n)
  {
    forall x | x in st.inodes && x != n && IsFile(st, x)
      ensures IsFile(st2, x) && Contents(st2, x) == Contents(st, x)
    {
      assert IsFile(st1, x);
    }
  }

  /** How far filewrite has got: i bytes of src stand in the file at off. */
  ghost predicate WroteSome(st0: State, st: State, n: nat, off: nat, src: seq<Byte>, i: nat) {
    && n in st0.inodes && n in st.inodes && i <= |src| && IsFile(st0, n) && IsFile(st, n) && OthersKept(st0, st, n)
    && (off > |Contents(st0, n)| ==> i == 0)
    && Contents(st, n) == if off > |Contents(st0, n)| then Contents(st0, n) else Splice(Contents(st0, n), off, src[..i])
  }

  lemma WroteMore(st0: State, st: State, st': State, n: nat, off: nat, src: seq<Byte>, i: nat, m: nat, r: nat)
    requires WroteSome(st0, st, n, off, src, i) && i + m <= |src| && r <= m && off + i <= |Contents(st, n)|
    requires n in st'.inodes && IsFile(st', n) && OthersKept(st, st', n)
    requires Contents(st', n) == Splice(Contents(st, n), off + i, src[i..i + m][..r])
    ensures WroteSome(st0, st', n, off, src, i + r)
  {
    OthersKeptTwice(st0, st, st', n);
    assert src[i..i + m][..r] == src[i..i + r];
    SpliceNext(Contents(st0, n), off, src, i, r);
  }

  lemma WroteNone(g: Geometry, st: State, n: nat, off: nat, src: seq<Byte>)
    requires Files(g, st) && n in st.inodes
    ensures WroteSome(st, st, n, off, src, 0)
  {
    assert IsFile(st, n);
    assert off <= |Contents(st, n)| ==> Splice(Contents(st, n), off, src[..0]) == Contents(st, n);
  }

  lemma WroteTurn(st0: State, st: State, st': State, n: nat, off: nat, src: seq<Byte>, i: nat, part: seq<Byte>, r: int)
    requires WroteSome(st0, st, n, off, src, i) && i + |part| <= |src| && part == src[i..i + |part|]
    requires Wrote(st, st', n, off + i, part, r)
    ensures WroteSome(st0, st', n, off, src, if r > 0 then i + r else i)
  {
    if r >= 0 {
      WroteMore(st0, st, st', n, off, src, i, |part|, r);
    }
  }

  /** A turn of filewrite's loop. */
  method WriteNext(fs: Inodes, n: nat, part: seq<Byte>, off: nat, i: nat, ghost src: seq<Byte>, ghost st0: State)
    returns (r: int, ghost i': nat)
    requires Files(fs.disk.g, fs.St()) && WroteSome(st0, fs.St(), n, off, src, i) && |part| <= CHUNK
    requires i + |part| <= |src| && part == src[i..i + |part|] && off + i < WRAP
    modifies fs, fs.disk
    ensures Files(fs.disk.g, fs.St()) && -1 <= r <= |part| && (r > 0 ==> off + i + r < WRAP)
    ensures i' == (if r > 0 then i + r else i) && WroteSome(st0, fs.St(), n, off, src, i')
    ensures |fs.disk.logged| <= 5 + MapBlocks(fs.disk.g)
  {
    ghost var st := fs.St();
    r := WriteOp(fs, n, part, off + i);
    i' := if r > 0 then i + r else i;
    WroteTurn(st0, st, fs.St(), n, off, src, i, part, r);
  }

  /**
    filewrite on an inode: one transaction per chunk, each within its reservation; together they write the first bytes
    of src at the file offset, which moves by their number, and the answer is |src| exactly if that was all of them.
   */
  method FileWrite(fs: Inodes, n: nat, src: seq<Byte>, off: nat)
    returns (ret: int, off': nat, ghost done: nat, ghost most: nat)
    requires Files(fs.disk.g, fs.St()) && n in fs.inodes && off < WRAP
    modifies fs, fs.disk
    ensures Files(fs.disk.g, fs.St()) && off' == off + done && WroteSome(old(fs.St()), fs.St(), n, off, src, done)
    ensures ret == if done == |src| then |src| else -1
    ensures most <= 5 + MapBlocks(fs.disk.g)
    ensures MapBlocks(fs.disk.g) <= 3 ==> most + 1 < L.MAXOPBLOCKS
  {
    ghost var st0 := fs.St();
    WroteNone(fs.disk.g, st0, n, off, src);
    most, done := 0, 0;
    var i := 0;
    off' := off;
    while i < |src|
      invariant 0 <= i <= |src| && done == i && off' == off + i < WRAP && Files(fs.disk.g, fs.St())
      invariant WroteSome(st0, fs.St(), n, off, src, done) && most <= 5 + MapBlocks(fs.disk.g)
    {
      var n1, r := Min(|src| - i, CHUNK), 0;
      r, done := WriteNext(fs, n, src[i..i + n1], off, i, src, st0);
      most := Max(most, |fs.disk.logged|);
      if r > 0 {
        off' := off' + r;
      }
      if r != n1 {
        break;
      }
      i := i + r;
    }
    ret := if i == |src| then |src| else -1;
  }

  /** itrunc as an operation of its own: however long the file, only blocks of the free map. */
  method TruncOp(fs: Inodes, n: nat)
    requires Files(fs.disk.g, fs.St()) && n in fs.inodes
    modifies fs, fs.disk
    ensures Files(fs.disk.g, fs.St()) && OthersKept(old(fs.St()), fs.St(), n)
    ensures fs.inodes.Keys == old(fs.inodes.Keys) && IsFile(fs.St(), n) && Contents(fs.St(), n) == []
    ensures |fs.disk.logged| <= MapBlocks(fs.disk.g)
    ensures MapBlocks(fs.disk.g) <= 8 ==> |fs.disk.logged| + 1 < L.MAXOPBLOCKS
  {
    fs.disk.logged := {};
    ghost var st := fs.St();
    fs.Itrunc(n);
    TruncatedFiles(fs.disk.g, st, fs.St(), n);
    assert IsFile(fs.St(), n);
    LoggedSize(fs.disk.g, fs.disk.logged, {});
  }

  /** dirlink as an operation of its own: the entry's block, the indirect block, and blocks of the free map. */
  method LinkOp(fs: Inodes, n: nat, name: seq<Byte>, inum: nat) returns (ok: bool)
    requires Files(fs.disk.g, fs.St()) && IsDir(fs.St(), n)
    modifies fs, fs.disk
    ensures Files(fs.disk.g, fs.St()) && IsDir(fs.St(), n) && OthersKept(old(fs.St()), fs.St(), n)
    ensures Cut(name, DIRSIZ) in old(DirOf(fs.St(), n)) ==> !ok
    ensures DirOf(fs.St(), n) ==
            if ok then Link(old(DirOf(fs.St(), n)), Cut(name, DIRSIZ), inum) else old(DirOf(fs.St(), n))
    ensures |fs.disk.logged| <= 2 + MapBlocks(fs.disk.g)
    ensures MapBlocks(fs.disk.g) <= 6 ==> |fs.disk.logged| + 1 < L.MAXOPBLOCKS
  {
    fs.disk.logged := {};
    ghost var ds;
    ok, ds := DirLink(fs, n, name, inum);
    LoggedSize(fs.disk.g, fs.disk.logged, ds);
  }

  /**
    What these bounds are for: in every state of every run of the log's protocol, an operation whose blocks all lie in
    a set of fewer than MAXOPBLOCKS may log a further block, and does so without a panic if the log area is larger
    than LOGSIZE.
   */
  lemma NextLogWrite(g: L.Geometry, base: L.Disk, run: seq<P.State>, steps: seq<P.Step>, i: nat, op: nat, l: set<int>,
                     b: int, data: L.Block)
    returns (s': P.State)
    requires P.IsRun(g, base, run, steps) && i < |run| && run[i].panic.NoPanic? && op in run[i].ops
    requires run[i].ops[op] <= l && |l| < L.MAXOPBLOCKS && L.IsHome(g, run[i].disk, b)
    ensures P.Next(g, run[i], P.LogWrite(op, b, data), s')
    ensures s'.panic.NoPanic? ==> op in s'.ops && s'.ops[op] == run[i].ops[op] + {b} && b in s'.lh
    ensures g.size > L.LOGSIZE ==> s'.panic.NoPanic?
  {
    var s := run[i];
    P.RunInv(g, base, run, steps, i);
    SubsetBound(s.ops[op], l);
    var panic := Log.LogWritePanic(g, |s.lh|, s.outstanding);
    s' := if !panic.NoPanic? then s.(panic := panic)
    else s.(lh := Log.Absorb(s.lh, b), mem := s.mem[b := data], ops := s.ops[op := s.ops[op] + {b}],
            cur := s.cur + [P.Rec(op, s.txn, b, data)]);
    P.LogWriteCount(g, s, op, b, data, s');
  }
}
