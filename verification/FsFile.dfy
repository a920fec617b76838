/** Files as flat byte sequences: readi and writei over bmap. */
module FsFile {

  import opened FsBytes
  import opened FsBlocks
  import opened FsInode

  const WRAP := 0x1_0000_0000

  /** Byte k of inode n's blocks is on the disk. */
  ghost predicate HasByte(st: State, n: nat, k: nat) {
    var s := SlotOf(n, k / BSIZE);
    IsSlot(st, s) && Addr(st, s) != 0 && Addr(st, s) in st.data
  }

  function ByteAt(st: State, n: nat, k: nat): Byte
    requires HasByte(st, n, k)
  {
    st.data[Addr(st, SlotOf(n, k / BSIZE))][k % BSIZE]
  }

  /** The first e bytes of inode n's blocks are all on the disk: no block among them is missing. */
  ghost predicate Solid(st: State, n: nat, e: nat) {
    forall k: nat {:trigger HasByte(st, n, k)} :: k < e ==> HasByte(st, n, k)
  }

  ghost function View(st: State, n: nat, e: nat): (v: seq<Byte>)
    requires Solid(st, n, e)
    ensures |v| == e && forall k :: 0 <= k < e ==> HasByte(st, n, k) && v[k] == ByteAt(st, n, k)
  {
    seq(e, k requires 0 <= k < e => assert HasByte(st, n, k); ByteAt(st, n, k))
  }

  /** A file is its inode's size many bytes, none missing. */
  ghost predicate IsFile(st: State, n: nat) {
    n in st.inodes ==> st.inodes[n].size <= MAXFILE * BSIZE && Solid(st, n, st.inodes[n].size)
  }

  ghost function Contents(st: State, n: nat): seq<Byte>
    requires n in st.inodes && IsFile(st, n)
  {
    View(st, n, st.inodes[n].size)
  }

  ghost predicate Files(g: Geometry, st: State) {
    st.dead == {} && Inv(g, st) && forall n {:trigger IsFile(st, n)} :: IsFile(st, n)
  }

  // ---------------------------------------------------------------- writing one block's worth

  // The bytes of b from o on replaced by those of c.
  function Patch(b: Blk, o: nat, c: seq<Byte>): Blk
    requires o + |c| <= BSIZE
  {
    b[..o] + c + b[o + |c|..]
  }

  function WriteBlock(st: State, a: nat, b: Blk): State { State(st.data[a := b], st.inodes, st.owner, st.dead) }

  /** Overwriting a file's data block changes neither the map of blocks nor any other file data. */
  lemma DataWrite(g: Geometry, st: State, s: Slot, b: Blk)
    requires Inv(g, st) && IsSlot(st, s) && Addr(st, s) != 0 && !s.Indirect?
    ensures var st' := WriteBlock(st, Addr(st, s), b);
            Inv(g, st') && MapKept(st, st', s) && IsSlot(st', s) && Addr(st', s) == Addr(st, s)
  {
    var a := Addr(st, s);
    var st' := WriteBlock(st, a, b);
    OwnedIsUsed(g, st, s);
    forall t | IsSlot(st, t)
      ensures IsSlot(st', t) && Addr(st', t) == Addr(st, t)
    {
      IndirectBlock(g, st, t.inum);
    }
    forall t ensures Owns(g, st', t) {
      assert Owns(g, st, t);
      assert IsSlot(st', t) <==> IsSlot(st, t);
    }
    forall c: nat ensures Owned(g, st', c) {
      assert Owned(g, st, c);
    }
    forall c: nat ensures Accounted(g, st', c) {
      assert Accounted(g, st, c);
      if c < g.size {
        UsedElsewhere(g, st.data, a, b, c);
      }
    }
    forall t | t != s && !t.Indirect?
      ensures Kept(st, st', t)
    {
      assert Owns(g, st, t);
      assert IsSlot(st', t) <==> IsSlot(st, t);
    }
  }

  lemma KeptByte(st: State, st': State, s: Slot, n: nat, k: nat)
    requires MapKept(st, st', s) && HasByte(st, n, k) && SlotOf(n, k / BSIZE) != s
    ensures HasByte(st', n, k) && ByteAt(st', n, k) == ByteAt(st, n, k)
  {
    assert Kept(st, st', SlotOf(n, k / BSIZE));
  }

  function Max(a: nat, b: nat): nat { if a < b then b else a }

  function Min(a: nat, b: nat): nat { if a < b then a else b }

  /** v with c written at off, where off is within v or at its end. */
  function Splice(v: seq<Byte>, off: nat, c: seq<Byte>): (w: seq<Byte>)
    requires off <= |v|
    ensures |w| == Max(|v|, off + |c|)
  {
    v[..off] + c + (if off + |c| <= |v| then v[off + |c|..] else [])
  }

  lemma SpliceAt(v: seq<Byte>, off: nat, c: seq<Byte>, k: nat)
    requires off <= |v| && k < Max(|v|, off + |c|)
    ensures off <= k < off + |c| || k < |v|
    ensures Splice(v, off, c)[k] == if off <= k < off + |c| then c[k - off] else v[k]
  {}

  /** Splicing two adjacent pieces is splicing their concatenation. */
  lemma SpliceTwice(v: seq<Byte>, off: nat, c: seq<Byte>, d: seq<Byte>)
    requires off <= |v|
    ensures Splice(Splice(v, off, c), off + |c|, d) == Splice(v, off, c + d)
  {}

  lemma SpliceNext(v: seq<Byte>, off: nat, src: seq<Byte>, tot: nat, m: nat)
    requires off <= |v| && tot + m <= |src|
    ensures Splice(Splice(v, off, src[..tot]), off + tot, src[tot..tot + m]) == Splice(v, off, src[..tot + m])
    ensures Max(Max(|v|, off + tot), off + tot + m) == Max(|v|, off + (tot + m))
  {
    SpliceTwice(v, off, src[..tot], src[tot..tot + m]);
    assert src[..tot] + src[tot..tot + m] == src[..tot + m];
  }

  lemma PatchedByte(b: Blk, off: nat, c: seq<Byte>, k: nat)
    requires off % BSIZE + |c| <= BSIZE && k / BSIZE == off / BSIZE
    ensures Patch(b, off % BSIZE, c)[k % BSIZE] == if off <= k < off + |c| then c[k - off] else b[k % BSIZE]
  {
    assert k - off == k % BSIZE - off % BSIZE;
  }

  lemma SameBlock(off: nat, m: nat, k: nat)
    requires off % BSIZE + m <= BSIZE && off <= k < off + m
    ensures k / BSIZE == off / BSIZE
  {}

  lemma SlotsDiffer(n: nat, a: nat, b: nat)
    ensures SlotOf(n, a) == SlotOf(n, b) <==> a == b
  {}

  /** One turn of writei's loop, byte by byte: bmap took st to st1, and the write took st1 to st2. */
  lemma WrittenByte(g: Geometry, st: State, st1: State, st2: State, n: nat, off: nat, c: seq<Byte>, k: nat)
    requires Inv(g, st1) && off % BSIZE + |c| <= BSIZE
    requires IsSlot(st1, SlotOf(n, off / BSIZE)) && Addr(st1, SlotOf(n, off / BSIZE)) != 0
    requires Mapped(g, st, st1, SlotOf(n, off / BSIZE), Addr(st1, SlotOf(n, off / BSIZE)))
    requires Addr(st1, SlotOf(n, off / BSIZE)) in st1.data
    requires var a := Addr(st1, SlotOf(n, off / BSIZE)); st2 == WriteBlock(st1, a, Patch(st1.data[a], off % BSIZE, c))
    requires HasByte(st, n, k) || off <= k < off + |c|
    ensures HasByte(st2, n, k)
    ensures ByteAt(st2, n, k) == if off <= k < off + |c| then c[k - off] else ByteAt(st, n, k)
  {
    var s := SlotOf(n, off / BSIZE);
    var a := Addr(st1, s);
    DataWrite(g, st1, s, Patch(st1.data[a], off % BSIZE, c));
    if off <= k < off + |c| {
      SameBlock(off, |c|, k);
    }
    SlotsDiffer(n, k / BSIZE, off / BSIZE);
    if k / BSIZE == off / BSIZE {
      PatchedByte(st1.data[a], off, c, k);
    } else {
      KeptByte(st, st1, s, n, k);
      KeptByte(st1, st2, s, n, k);
    }
  }

  /** One turn of writei's loop extends and overwrites the flat contents as a splice does. */
  lemma WriteStep(g: Geometry, st: State, st1: State, st2: State, n: nat, off: nat, c: seq<Byte>, e: nat)
    requires Inv(g, st1) && off % BSIZE + |c| <= BSIZE && off <= e && Solid(st, n, e)
    requires IsSlot(st1, SlotOf(n, off / BSIZE)) && Addr(st1, SlotOf(n, off / BSIZE)) != 0
    requires Mapped(g, st, st1, SlotOf(n, off / BSIZE), Addr(st1, SlotOf(n, off / BSIZE)))
    requires Addr(st1, SlotOf(n, off / BSIZE)) in st1.data
    requires var a := Addr(st1, SlotOf(n, off / BSIZE)); st2 == WriteBlock(st1, a, Patch(st1.data[a], off % BSIZE, c))
    ensures Solid(st2, n, Max(e, off + |c|)) && View(st2, n, Max(e, off + |c|)) == Splice(View(st, n, e), off, c)
  {
    var v, e' := View(st, n, e), Max(e, off + |c|);
    var w := Splice(v, off, c);
    forall k: nat | k < e'
      ensures HasByte(st2, n, k) && ByteAt(st2, n, k) == w[k]
    {
      assert k < e ==> HasByte(st, n, k);
      WrittenByte(g, st, st1, st2, n, off, c, k);
      SpliceAt(v, off, c, k);
    }
  }

  /** Files other than the one a step is about keep their contents. */
  lemma OtherFile(st: State, st': State, s: Slot, n: nat)
    requires MapKept(st, st', s) && n in st.inodes && IsFile(st, n) && s.inum != n
    ensures IsFile(st', n) && Contents(st', n) == Contents(st, n)
  {
    forall k: nat | k < st.inodes[n].size
      ensures HasByte(st', n, k) && ByteAt(st', n, k) == ByteAt(st, n, k)
    {
      assert HasByte(st, n, k);
      KeptByte(st, st', s, n, k);
    }
  }

  // ---------------------------------------------------------------- readi

  lemma ReadChunk(st: State, n: nat, e: nat, off: nat, m: nat)
    requires Solid(st, n, e) && off + m <= e && off % BSIZE + m <= BSIZE && 0 < m
    ensures HasByte(st, n, off)
    ensures View(st, n, e)[off..off + m] == st.data[Addr(st, SlotOf(n, off / BSIZE))][off % BSIZE..off % BSIZE + m]
  {
    assert HasByte(st, n, off);
    var a := Addr(st, SlotOf(n, off / BSIZE));
    var x, y := View(st, n, e)[off..off + m], st.data[a][off % BSIZE..off % BSIZE + m];
    forall i | 0 <= i < m
      ensures x[i] == y[i]
    {
      SameBlock(off, m, off + i);
      assert (off + i) % BSIZE == off % BSIZE + i;
    }
  }

  /** One turn of readi's loop: within the file bmap finds the block and allocates nothing. */
  method ReadPart(fs: Inodes, n: nat, o: nat, m: nat) returns (part: seq<Byte>)
    requires Files(fs.disk.g, fs.St()) && n in fs.inodes && o + m <= fs.inodes[n].size && o % BSIZE + m <= BSIZE
    requires 0 < m
    modifies fs, fs.disk
    ensures fs.St() == old(fs.St()) && IsFile(fs.St(), n) && part == Contents(fs.St(), n)[o..o + m]
    ensures fs.disk.logged == old(fs.disk.logged)
  {
    ghost var st := fs.St();
    assert IsFile(st, n);
    ReadChunk(st, n, fs.inodes[n].size, o, m);
    var addr := fs.Bmap(n, o / BSIZE);
    part := fs.disk.data[addr][o % BSIZE..o % BSIZE + m];
  }

  /** readi: the bytes asked for, cut at the end of the file; nothing when off is beyond it or off + n wraps. */
  method Readi(fs: Inodes, n: nat, off: nat, cnt: nat) returns (dst: seq<Byte>)
    requires Files(fs.disk.g, fs.St()) && n in fs.inodes && off < WRAP && cnt < WRAP
    modifies fs, fs.disk
    ensures fs.St() == old(fs.St()) && IsFile(fs.St(), n) && fs.disk.logged == old(fs.disk.logged)
    ensures dst ==
      if off > |Contents(fs.St(), n)| || off + cnt >= WRAP then []
      else Contents(fs.St(), n)[off..Min(off + cnt, |Contents(fs.St(), n)|)]
  {
    ghost var st := fs.St();
    assert IsFile(st, n);
    var size := fs.inodes[n].size;
    ghost var v := Contents(st, n);
    dst := [];
    if off > size || (off + cnt) % WRAP < off {
      return;
    }
    var want := if off + cnt > size then size - off else cnt;
    var tot, o := 0, off;
    while tot < want
      invariant 0 <= tot <= want && o == off + tot && fs.St() == st && dst == v[off..o]
      invariant fs.disk.logged == old(fs.disk.logged)
    {
      var m := Min(want - tot, BSIZE - o % BSIZE);
      var part := ReadPart(fs, n, o, m);
      dst := dst + part;
      assert v[off..o] + v[o..o + m] == v[off..o + m];
      tot, o := tot + m, o + m;
    }
  }

  // ---------------------------------------------------------------- writei

  /** Every file but inode n's is as it was. */
  ghost predicate OthersKept(st: State, st': State, n: nat) {
    && st'.inodes.Keys == st.inodes.Keys
    && forall x {:trigger IsFile(st, x)} {:trigger IsFile(st', x)} :: x in st.inodes && x != n && IsFile(st, x) ==>
           IsFile(st', x) && Contents(st', x) == Contents(st, x)
  }

  lemma OthersKeptNext(st0: State, st: State, st': State, n: nat, s: Slot)
    requires OthersKept(st0, st, n) && MapKept(st, st', s) && s.inum == n
    ensures OthersKept(st0, st', n)
  {
    forall x | x in st0.inodes && x != n && IsFile(st0, x)
      ensures IsFile(st', x) && Contents(st', x) == Contents(st0, x)
    {
      OtherFile(st, st', s, x);
    }
  }

  ghost predicate Full(g: Geometry, st: State) {
    forall b: nat {:trigger Used(g, st.data, b)} :: b < g.size ==> Used(g, st.data, b)
  }

  /** When bmap fails nothing of any file has changed. */
  lemma UnmappedView(g: Geometry, st: State, st1: State, n: nat, off: nat, e: nat)
    requires Mapped(g, st, st1, SlotOf(n, off / BSIZE), 0) && Solid(st, n, e)
    ensures Solid(st1, n, e) && View(st1, n, e) == View(st, n, e)
  {
    var s := SlotOf(n, off / BSIZE);
    forall k: nat | k < e
      ensures HasByte(st1, n, k) && ByteAt(st1, n, k) == ByteAt(st, n, k)
    {
      assert HasByte(st, n, k);
      SlotsDiffer(n, k / BSIZE, off / BSIZE);
      KeptByte(st, st1, s, n, k);
    }
  }

  /** One turn of writei's loop: the chunk is spliced in, or the disk is full and nothing has changed. */
  method WritePart(fs: Inodes, n: nat, o: nat, c: seq<Byte>, ghost e: nat) returns (ok: bool, ghost a: nat)
    requires fs.Valid() && n in fs.inodes && Solid(fs.St(), n, e) && o <= e && o % BSIZE + |c| <= BSIZE
    requires o < MAXFILE * BSIZE
    modifies fs, fs.disk
    ensures fs.Valid() && MapKept(old(fs.St()), fs.St(), SlotOf(n, o / BSIZE))
    ensures n in fs.inodes && (old(fs.Listing(n)) != 0 ==> fs.Listing(n) == old(fs.Listing(n)))
    ensures Logs(fs.disk.g, old(fs.disk.logged), fs.disk.logged, {a, fs.Listing(n)} - {0})
    ensures !ok ==> Full(fs.disk.g, fs.St()) && Solid(fs.St(), n, e) && View(fs.St(), n, e) == old(View(fs.St(), n, e))
    ensures !ok ==> a == 0
    ensures ok ==> Solid(fs.St(), n, Max(e, o + |c|))
    ensures ok ==> View(fs.St(), n, Max(e, o + |c|)) == Splice(old(View(fs.St(), n, e)), o, c)
  {
    ghost var st, g, s := fs.St(), fs.disk.g, SlotOf(n, o / BSIZE);
    var addr := fs.Bmap(n, o / BSIZE);
    ghost var st1 := fs.St();
    if addr == 0 {
      UnmappedView(g, st, st1, n, o, e);
      return false, addr;
    }
    OwnedIsUsed(g, st1, s);
    DataWrite(g, st1, s, Patch(st1.data[addr], o % BSIZE, c));
    fs.disk.data := fs.disk.data[addr := Patch(fs.disk.data[addr], o % BSIZE, c)];
    fs.disk.logged := fs.disk.logged + {addr};
    WriteStep(g, st, st1, fs.St(), n, o, c, e);
    MapKeptTwice(st, st1, fs.St(), s);
    return true, addr;
  }

  lemma GrownFile(g: Geometry, st: State, st': State, n: nat, e: nat)
    requires Inv(g, st) && n in st.inodes && Solid(st, n, e) && e <= MAXFILE * BSIZE
    requires st' == State(st.data, st.inodes[n := Inode(st.inodes[n].addrs, e)], st.owner, st.dead)
    ensures Inv(g, st') && IsFile(st', n) && Contents(st', n) == View(st, n, e)
    ensures forall x {:trigger IsFile(st', x)} :: x in st.inodes && x != n && IsFile(st, x) ==>
                IsFile(st', x) && Contents(st', x) == Contents(st, x)
  {
    SizeOnly(g, st, st', n);
    forall x: nat, k: nat | HasByte(st, x, k)
      ensures HasByte(st', x, k) && ByteAt(st', x, k) == ByteAt(st, x, k)
    {}
    forall k: nat | k < e
      ensures HasByte(st', n, k)
    {
      assert HasByte(st, n, k);
    }
    forall x | x in st.inodes && x != n && IsFile(st, x)
      ensures IsFile(st', x) && Contents(st', x) == Contents(st, x)
    {
      forall k: nat | k < st.inodes[x].size
        ensures HasByte(st', x, k)
      {
        assert HasByte(st, x, k);
      }
    }
  }

  /** A write stops at its end or at a block's. */
  predicate WholeBlocks(off: nat, tot: nat, len: nat) { tot == 0 || tot == len || (off + tot) % BSIZE == 0 }

  /** How many blocks the bytes from off to off + len lie in. */
  function BlockCount(off: nat, len: nat): nat {
    if len == 0 then 0 else (off + len - 1) / BSIZE - off / BSIZE + 1
  }

  lemma BlockCountNext(off: nat, tot: nat, len: nat)
    requires tot < len && WholeBlocks(off, tot, len)
    ensures BlockCount(off, tot + Chunk(off, tot, len)) == BlockCount(off, tot) + 1
  {
    var m := Chunk(off, tot, len);
    if tot == 0 {
      SameBlock(off, m, off + m - 1);
    } else {
      assert (off + tot) % BSIZE == 0;
      SameBlock(off + tot, m, off + tot + m - 1);
      assert (off + tot - 1) / BSIZE == (off + tot) / BSIZE - 1;
    }
  }

  /** Fewer bytes lie in no more blocks. */
  lemma BlockCountLess(off: nat, tot: nat, len: nat)
    requires tot <= len
    ensures BlockCount(off, tot) <= BlockCount(off, len)
  {
    if tot > 0 {
      assert (off + tot - 1) / BSIZE <= (off + len - 1) / BSIZE;
    } else if len > 0 {
      assert off / BSIZE <= (off + len - 1) / BSIZE;
    }
  }

  /** Since l0, outside the free map, at most cnt blocks ds and the indirect block ia were logged. */
  ghost predicate Spent(g: Geometry, l0: set<nat>, l: set<nat>, ds: set<nat>, ia: nat, cnt: nat) {
    Logs(g, l0, l, ds + ({ia} - {0})) && |ds| <= cnt
  }

  lemma SpentNext(g: Geometry, l0: set<nat>, l: set<nat>, l': set<nat>, ds: set<nat>, ia: nat, a: nat, ia': nat,
                  cnt: nat)
    requires Spent(g, l0, l, ds, ia, cnt) && Logs(g, l, l', {a, ia'} - {0}) && (ia != 0 ==> ia' == ia)
    ensures Spent(g, l0, l', ds + ({a} - {0}), ia', cnt + if a == 0 then 0 else 1)
  {
  }

  /** One more block, unless the turn failed. */
  lemma CountNext(g: Geometry, l0: set<nat>, l: set<nat>, l': set<nat>, ds: set<nat>, ia: nat, a: nat, ia': nat,
                  off: nat, tot: nat, len: nat, tot': nat)
    requires tot < len && WholeBlocks(off, tot, len) && ((tot' == tot && a == 0) || tot' == tot + Chunk(off, tot, len))
    requires Spent(g, l0, l, ds, ia, BlockCount(off, tot)) && Logs(g, l, l', {a, ia'} - {0}) && (ia != 0 ==> ia' == ia)
    ensures tot <= tot' <= len && WholeBlocks(off, tot', len)
    ensures Spent(g, l0, l', ds + ({a} - {0}), ia', BlockCount(off, tot'))
  {
    SpentNext(g, l0, l, l', ds, ia, a, ia', BlockCount(off, tot));
    BlockCountNext(off, tot, len);
  }

  // How much one turn of the loop writes.
  function Chunk(off: nat, tot: nat, len: nat): (m: nat)
    requires tot < len
    ensures 0 < m <= len - tot && (off + tot) % BSIZE + m <= BSIZE && WholeBlocks(off, tot + m, len)
  {
    Min(len - tot, BSIZE - (off + tot) % BSIZE)
  }

  /** Where writei's loop stands: the first tot bytes of src are in, and no other file is affected. */
  ghost predicate Written(st0: State, st: State, n: nat, v: seq<Byte>, off: nat, src: seq<Byte>, tot: nat)
    requires off <= |v| && tot <= |src|
  {
    && n in st0.inodes && n in st.inodes && st.inodes[n].size == st0.inodes[n].size && OthersKept(st0, st, n)
    && Solid(st, n, Max(|v|, off + tot)) && View(st, n, Max(|v|, off + tot)) == Splice(v, off, src[..tot])
  }

  lemma TurnDone(st0: State, st: State, st': State, n: nat, v: seq<Byte>, off: nat, src: seq<Byte>, tot: nat, m: nat,
                 e: nat)
    requires off <= |v| && tot + m <= |src| && Written(st0, st, n, v, off, src, tot) && e == Max(|v|, off + tot)
    requires MapKept(st, st', SlotOf(n, (off + tot) / BSIZE)) && Solid(st', n, Max(e, off + tot + m))
    requires View(st', n, Max(e, off + tot + m)) == Splice(View(st, n, e), off + tot, src[tot..tot + m])
    ensures Written(st0, st', n, v, off, src, tot + m)
  {
    OthersKeptNext(st0, st, st', n, SlotOf(n, (off + tot) / BSIZE));
    SpliceNext(v, off, src, tot, m);
  }

  lemma TurnFailed(st0: State, st: State, st': State, n: nat, v: seq<Byte>, off: nat, src: seq<Byte>, tot: nat)
    requires off <= |v| && tot <= |src| && Written(st0, st, n, v, off, src, tot)
    requires MapKept(st, st', SlotOf(n, (off + tot) / BSIZE)) && Solid(st', n, Max(|v|, off + tot))
    requires View(st', n, Max(|v|, off + tot)) == View(st, n, Max(|v|, off + tot))
    ensures Written(st0, st', n, v, off, src, tot)
  {
    OthersKeptNext(st0, st, st', n, SlotOf(n, (off + tot) / BSIZE));
  }

  /** One turn of writei's loop; m is 0 when the disk is full. */
  method WriteTurn(fs: Inodes, n: nat, src: seq<Byte>, off: nat, tot: nat, ghost v: seq<Byte>, ghost st0: State)
    returns (tot': nat, ghost a: nat)
    requires fs.Valid() && off <= |v| && off + |src| <= MAXFILE * BSIZE && tot < |src|
    requires Written(st0, fs.St(), n, v, off, src, tot)
    modifies fs, fs.disk
    ensures fs.Valid() && tot' <= |src| && Written(st0, fs.St(), n, v, off, src, tot')
    ensures (tot' == tot && Full(fs.disk.g, fs.St()) && a == 0) || tot' == tot + Chunk(off, tot, |src|)
    ensures n in fs.inodes && (old(fs.Listing(n)) != 0 ==> fs.Listing(n) == old(fs.Listing(n)))
    ensures Logs(fs.disk.g, old(fs.disk.logged), fs.disk.logged, {a, fs.Listing(n)} - {0})
  {
    var m := Chunk(off, tot, |src|);
    ghost var st, e := fs.St(), Max(|v|, off + tot);
    var ok;
    ok, a := WritePart(fs, n, off + tot, src[tot..tot + m], e);
    if !ok {
      TurnFailed(st0, st, fs.St(), n, v, off, src, tot);
      return tot, a;
    }
    TurnDone(st0, st, fs.St(), n, v, off, src, tot, m, e);
    tot' := tot + m;
  }

  /** The same turn, with the blocks logged so far counted. */
  method CountedTurn(fs: Inodes, n: nat, src: seq<Byte>, off: nat, tot: nat, ghost v: seq<Byte>, ghost st0: State,
                     ghost l0: set<nat>, ghost ds: set<nat>)
    returns (tot': nat, ghost ds': set<nat>)
    requires fs.Valid() && off <= |v| && off + |src| <= MAXFILE * BSIZE && tot < |src|
    requires Written(st0, fs.St(), n, v, off, src, tot) && WholeBlocks(off, tot, |src|)
    requires n in fs.inodes && Spent(fs.disk.g, l0, fs.disk.logged, ds, fs.Listing(n), BlockCount(off, tot))
    modifies fs, fs.disk
    ensures fs.Valid() && tot <= tot' <= |src| && Written(st0, fs.St(), n, v, off, src, tot')
    ensures WholeBlocks(off, tot', |src|) && (tot' == tot ==> Full(fs.disk.g, fs.St()))
    ensures n in fs.inodes && Spent(fs.disk.g, l0, fs.disk.logged, ds', fs.Listing(n), BlockCount(off, tot'))
  {
    ghost var l, ia, a := fs.disk.logged, fs.Listing(n), 0;
    tot', a := WriteTurn(fs, n, src, off, tot, v, st0);
    CountNext(fs.disk.g, l0, l, fs.disk.logged, ds, ia, a, fs.Listing(n), off, tot, |src|, tot');
    ds' := ds + ({a} - {0});
  }

  /** writei's loop: the first tot bytes of src are spliced in at off, all of them unless the disk fills up. */
  method WriteLoop(fs: Inodes, n: nat, src: seq<Byte>, off: nat, ghost v: seq<Byte>)
    returns (tot: nat, ghost ds: set<nat>)
    requires fs.Valid() && n in fs.inodes && Solid(fs.St(), n, |v|) && v == View(fs.St(), n, |v|)
    requires off <= |v| && off + |src| <= MAXFILE * BSIZE
    modifies fs, fs.disk
    ensures fs.Valid() && tot <= |src| && Written(old(fs.St()), fs.St(), n, v, off, src, tot)
    ensures (tot < |src| ==> Full(fs.disk.g, fs.St())) && WholeBlocks(off, tot, |src|)
    ensures n in fs.inodes
    ensures Spent(fs.disk.g, old(fs.disk.logged), fs.disk.logged, ds, fs.Listing(n), BlockCount(off, tot))
  {
    ghost var st0, l0 := fs.St(), fs.disk.logged;
    tot, ds := 0, {};
    assert Splice(v, off, src[..0]) == v;
    while tot < |src|
      invariant 0 <= tot <= |src| && fs.Valid() && Written(st0, fs.St(), n, v, off, src, tot)
      invariant WholeBlocks(off, tot, |src|) && n in fs.inodes
      invariant Spent(fs.disk.g, l0, fs.disk.logged, ds, fs.Listing(n), BlockCount(off, tot))
    {
      var tot';
      tot', ds := CountedTurn(fs, n, src, off, tot, v, st0, l0, ds);
      if tot' == tot {
        return;
      }
      tot := tot';
    }
  }

  /** The end of writei: the size is raised to the end of what was written. */
  method Grow(fs: Inodes, n: nat, o: nat, ghost st0: State)
    requires fs.Valid() && n in fs.inodes && OthersKept(st0, fs.St(), n) && fs.inodes[n].size <= MAXFILE * BSIZE
    requires o <= MAXFILE * BSIZE
    requires Solid(fs.St(), n, Max(fs.inodes[n].size, o)) && forall x {:trigger IsFile(st0, x)} :: IsFile(st0, x)
    modifies fs
    ensures Files(fs.disk.g, fs.St()) && n in fs.inodes && OthersKept(st0, fs.St(), n)
    ensures fs.disk.data == old(fs.disk.data)
    ensures Contents(fs.St(), n) == old(View(fs.St(), n, Max(fs.inodes[n].size, o)))
  {
    ghost var st, e := fs.St(), Max(fs.inodes[n].size, o);
    if o > fs.inodes[n].size {
      fs.inodes := fs.inodes[n := Inode(fs.inodes[n].addrs, o)];
    }
    assert fs.inodes == st.inodes[n := Inode(st.inodes[n].addrs, e)];
    GrownFile(fs.disk.g, st, fs.St(), n, e);
    forall x
      ensures IsFile(fs.St(), x)
    {
      assert IsFile(st0, x);
    }
  }

  /**
   * writei: a bad range changes nothing. Otherwise the first r bytes of src, all of them unless the disk filled up, are
   * written at off into the flat contents, which grow as needed; every other file keeps its contents. Outside the free
   * map it logs the blocks it writes to and the indirect block at most.
   */
  method Writei(fs: Inodes, n: nat, src: seq<Byte>, off: nat) returns (r: int, ghost ds: set<nat>)
    requires Files(fs.disk.g, fs.St()) && n in fs.inodes && off < WRAP && |src| < WRAP
    modifies fs, fs.disk
    ensures Files(fs.disk.g, fs.St()) && n in fs.inodes && IsFile(old(fs.St()), n) && IsFile(fs.St(), n)
    ensures OthersKept(old(fs.St()), fs.St(), n)
    ensures r == -1 <==> off > old(|Contents(fs.St(), n)|) || off + |src| >= WRAP || off + |src| > MAXFILE * BSIZE
    ensures r == -1 ==> fs.St() == old(fs.St())
    ensures r != -1 ==> 0 <= r <= |src| && Contents(fs.St(), n) == Splice(old(Contents(fs.St(), n)), off, src[..r])
    ensures r != -1 && r < |src| ==> Full(fs.disk.g, fs.St()) && WholeBlocks(off, r, |src|)
    ensures Logs(fs.disk.g, old(fs.disk.logged), fs.disk.logged, ds) && |ds| <= BlockCount(off, |src|) + 1
  {
    ghost var st0 := fs.St();
    assert IsFile(st0, n);
    var size := fs.inodes[n].size;
    if off > size || (off + |src|) % WRAP < off {
      return -1, {};
    }
    if off + |src| > MAXFILE * BSIZE {
      return -1, {};
    }
    var tot;
    tot, ds := WriteLoop(fs, n, src, off, Contents(st0, n));
    BlockCountLess(off, tot, |src|);
    ds := ds + ({fs.Listing(n)} - {0});
    Grow(fs, n, off + tot, st0);
    r := tot;
  }

  lemma TruncatedByte(g: Geometry, st: State, st': State, n: nat, x: nat, k: nat)
    requires Inv(g, st) && st.dead == {} && st'.dead == {} && Truncated(g, st, st', n) && x != n && HasByte(st, x, k)
    ensures HasByte(st', x, k) && ByteAt(st', x, k) == ByteAt(st, x, k)
  {
    var t := SlotOf(x, k / BSIZE);
    IndirectBlock(g, st, x);
    var ia := st.inodes[x].addrs[NDIRECT];
    assert Owns(g, st, t);
    assert BlockSame(st.data, st'.data, Addr(st, t));
    assert ia != 0 ==> BlockSame(st.data, st'.data, ia);
  }

  /** After itrunc the file is empty and all others are as they were. */
  lemma TruncatedFiles(g: Geometry, st: State, st': State, n: nat)
    requires Files(g, st) && Inv(g, st') && st'.dead == {} && Truncated(g, st, st', n)
    ensures Files(g, st') && Contents(st', n) == [] && OthersKept(st, st', n)
  {
    forall x | x in st.inodes && x != n
      ensures IsFile(st', x) && IsFile(st, x) && Contents(st', x) == Contents(st, x)
    {
      assert IsFile(st, x);
      forall k: nat | k < st.inodes[x].size
        ensures HasByte(st', x, k) && ByteAt(st', x, k) == ByteAt(st, x, k)
      {
        assert HasByte(st, x, k);
        TruncatedByte(g, st, st', n, x, k);
      }
    }
    assert IsFile(st', n);
    forall x
      ensures IsFile(st', x)
    {}
  }
}
