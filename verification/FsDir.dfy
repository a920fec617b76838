/** Directories: files of 16-byte entries, as finite maps from names to inode numbers. */
module FsDir {

  import opened FsBytes
  import opened FsBlocks
  import opened FsInode
  import opened FsFile

  const DIRSIZ := 14
  const ENTRY := 16

  type Name = seq<Byte>

  /** What counts of a name: the bytes before the first NUL, fourteen at most. */
  function Cut(s: seq<Byte>, n: nat): Name
  {
    if n == 0 || s == [] || s[0] == 0 then [] else [s[0]] + Cut(s[1..], n - 1)
  }

  // strncmp finds no difference; a string ends where its sequence does, or at a NUL.
  predicate SameUpTo(s: seq<Byte>, t: seq<Byte>, n: nat)
  {
    var a, b := if s == [] then 0 else s[0], if t == [] then 0 else t[0];
    n == 0 || (a == b && (a == 0 || SameUpTo(s[1..], t[1..], n - 1)))
  }

  /** namecmp compares what counts of the names. */
  lemma {:induction false} NameCmp(s: seq<Byte>, t: seq<Byte>, n: nat)
    ensures SameUpTo(s, t, n) <==> Cut(s, n) == Cut(t, n)
  {
    if n > 0 && s != [] && t != [] && s[0] == t[0] != 0 {
      NameCmp(s[1..], t[1..], n - 1);
      assert Cut(s, n)[1..] == Cut(s[1..], n - 1) && Cut(t, n)[1..] == Cut(t[1..], n - 1);
    } else if n > 0 && s != [] && t != [] && s[0] != 0 && t[0] != 0 {
      assert Cut(s, n)[0] == s[0] && Cut(t, n)[0] == t[0];
    }
  }

  // strncpy: the name, padded with NULs.
  function Padded(s: seq<Byte>, n: nat): (p: seq<Byte>)
    ensures |p| == n
    decreases |s|, n
  {
    if n == 0 then [] else if s == [] || s[0] == 0 then [0] + Padded([], n - 1) else [s[0]] + Padded(s[1..], n - 1)
  }

  lemma {:induction false} PaddedCut(s: seq<Byte>, n: nat)
    ensures Cut(Padded(s, n), n) == Cut(s, n)
  {
    if n > 0 && s != [] && s[0] != 0 {
      PaddedCut(s[1..], n - 1);
      assert Padded(s, n)[1..] == Padded(s[1..], n - 1);
    }
  }

  // ---------------------------------------------------------------- entries

  function Inum(c: seq<Byte>, k: nat): nat
    requires ENTRY * k + ENTRY <= |c|
  {
    c[ENTRY * k] as int + 256 * c[ENTRY * k + 1] as int
  }

  function EntryName(c: seq<Byte>, k: nat): Name
    requires ENTRY * k + ENTRY <= |c|
  {
    Cut(c[ENTRY * k + 2..ENTRY * k + ENTRY], DIRSIZ)
  }

  function Count(c: seq<Byte>): nat { |c| / ENTRY }

  /** The directory as a map, from entry k on; of equal names the first counts. */
  function DirFrom(c: seq<Byte>, k: nat): map<Name, nat>
    requires |c| % ENTRY == 0
    decreases Count(c) - k
  {
    if k >= Count(c) then map[]
    else if Inum(c, k) == 0 then DirFrom(c, k + 1)
    else DirFrom(c, k + 1)[EntryName(c, k) := Inum(c, k)]
  }

  function Dir(c: seq<Byte>): map<Name, nat>
    requires |c| % ENTRY == 0
  {
    DirFrom(c, 0)
  }

  /** An entry that is free or has another name does not matter to the lookup of nm. */
  lemma Skip(c: seq<Byte>, k: nat, nm: Name)
    requires |c| % ENTRY == 0 && k < Count(c) && (Inum(c, k) == 0 || EntryName(c, k) != nm)
    ensures nm in DirFrom(c, k) <==> nm in DirFrom(c, k + 1)
    ensures nm in DirFrom(c, k) ==> DirFrom(c, k)[nm] == DirFrom(c, k + 1)[nm]
  {}

  // The bytes of a new entry; the inode number is cut to sixteen bits.
  function EntryBytes(nm: seq<Byte>, inum: nat): (e: seq<Byte>)
    ensures |e| == ENTRY
  {
    [inum % 256, inum / 256 % 256] + Padded(nm, DIRSIZ)
  }

  function Link(m: map<Name, nat>, nm: Name, inum: nat): map<Name, nat>
  {
    if inum % 65536 == 0 then m else m[nm := inum % 65536]
  }

  lemma EntryAt(c: seq<Byte>, k: nat, nm: seq<Byte>, inum: nat)
    requires |c| % ENTRY == 0 && k <= Count(c)
    ensures var c' := Splice(c, ENTRY * k, EntryBytes(nm, inum));
      && |c'| % ENTRY == 0 && k < Count(c') && Count(c') == Max(Count(c), k + 1)
      && Inum(c', k) == inum % 65536 && EntryName(c', k) == Cut(nm, DIRSIZ)
  {
    var e := EntryBytes(nm, inum);
    var c' := Splice(c, ENTRY * k, e);
    assert c'[ENTRY * k..ENTRY * k + ENTRY] == e;
    assert c'[ENTRY * k + 2..ENTRY * k + ENTRY] == Padded(nm, DIRSIZ);
    PaddedCut(nm, DIRSIZ);
    assert c'[ENTRY * k] == e[0] && c'[ENTRY * k + 1] == e[1];
    assert inum % 256 + 256 * (inum / 256 % 256) == inum % 65536;
  }

  lemma OtherEntry(c: seq<Byte>, k: nat, e: seq<Byte>, j: nat)
    requires |c| % ENTRY == 0 && k <= Count(c) && |e| == ENTRY && j < Count(c) && j != k
    ensures var c' := Splice(c, ENTRY * k, e);
            ENTRY * j + ENTRY <= |c'| && Inum(c', j) == Inum(c, j) && EntryName(c', j) == EntryName(c, j)
  {
    var c' := Splice(c, ENTRY * k, e);
    assert c'[ENTRY * j..ENTRY * j + ENTRY] == c[ENTRY * j..ENTRY * j + ENTRY];
    assert c'[ENTRY * j + 2..ENTRY * j + ENTRY] == c[ENTRY * j + 2..ENTRY * j + ENTRY];
  }

  lemma {:induction false} Absent(c: seq<Byte>, k: nat, nm: Name)
    requires |c| % ENTRY == 0 && nm !in DirFrom(c, k)
    ensures forall i :: k <= i < Count(c) && Inum(c, i) != 0 ==> EntryName(c, i) != nm
    decreases Count(c) - k
  {
    if k < Count(c) {
      Absent(c, k + 1, nm);
    }
  }

  lemma {:induction false} BeyondLink(c: seq<Byte>, k: nat, e: seq<Byte>, j: nat)
    requires |c| % ENTRY == 0 && k <= Count(c) && |e| == ENTRY && k < j
    ensures |Splice(c, ENTRY * k, e)| % ENTRY == 0 && DirFrom(Splice(c, ENTRY * k, e), j) == DirFrom(c, j)
    decreases Count(c) - j
  {
    if j < Count(c) {
      OtherEntry(c, k, e, j);
      BeyondLink(c, k, e, j + 1);
    }
  }

  /** Writing an entry for a new name into a free place, or at the end, adds exactly that name to the map. */
  lemma {:induction false} LinkFrom(c: seq<Byte>, k: nat, nm: seq<Byte>, inum: nat, j: nat)
    requires |c| % ENTRY == 0 && k <= Count(c) && (k < Count(c) ==> Inum(c, k) == 0) && j <= k
    requires forall i :: 0 <= i < Count(c) && Inum(c, i) != 0 ==> EntryName(c, i) != Cut(nm, DIRSIZ)
    ensures var c' := Splice(c, ENTRY * k, EntryBytes(nm, inum));
      |c'| % ENTRY == 0 && DirFrom(c', j) == Link(DirFrom(c, j), Cut(nm, DIRSIZ), inum)
    decreases k - j
  {
    var e := EntryBytes(nm, inum);
    EntryAt(c, k, nm, inum);
    if j == k {
      BeyondLink(c, k, e, k + 1);
    } else {
      OtherEntry(c, k, e, j);
      LinkFrom(c, k, nm, inum, j + 1);
    }
  }

  ghost predicate IsDir(st: State, n: nat) { n in st.inodes && IsFile(st, n) && |Contents(st, n)| % ENTRY == 0 }

  ghost function DirOf(st: State, n: nat): map<Name, nat>
    requires IsDir(st, n)
  {
    Dir(Contents(st, n))
  }

  /** The loops' readi of one whole entry; a short read is the "read" panic. */
  method ReadEntry(fs: Inodes, n: nat, k: nat) returns (de: seq<Byte>)
    requires Files(fs.disk.g, fs.St()) && IsDir(fs.St(), n) && ENTRY * k < fs.inodes[n].size
    modifies fs, fs.disk
    ensures fs.St() == old(fs.St()) && |de| == ENTRY && fs.disk.logged == old(fs.disk.logged)
    ensures var c := Contents(fs.St(), n);
      && ENTRY * k + ENTRY <= |c| && Inum(c, k) == de[0] as int + 256 * de[1] as int
      && EntryName(c, k) == Cut(de[2..], DIRSIZ)
  {
    ghost var c := Contents(fs.St(), n);
    assert |c| <= MAXFILE * BSIZE;
    de := Readi(fs, n, ENTRY * k, ENTRY);
    assert de == c[ENTRY * k..ENTRY * k + ENTRY];
    assert de[2..] == c[ENTRY * k + 2..ENTRY * k + ENTRY];
  }

  /**
    dirlookup: the lookup of the cut name in the map, and the first entry, number k, that has it; its offset is
    16 k.
   */
  method DirLookup(fs: Inodes, n: nat, name: seq<Byte>) returns (found: bool, inum: nat, k: nat)
    requires Files(fs.disk.g, fs.St()) && IsDir(fs.St(), n)
    modifies fs, fs.disk
    ensures fs.St() == old(fs.St()) && fs.disk.logged == old(fs.disk.logged)
    ensures var nm, c := Cut(name, DIRSIZ), Contents(fs.St(), n);
      && (found <==> nm in Dir(c))
      && (found ==> inum == Dir(c)[nm] != 0 && k < Count(c) && Inum(c, k) == inum && EntryName(c, k) == nm)
  {
    ghost var st := fs.St();
    ghost var nm, c := Cut(name, DIRSIZ), Contents(st, n);
    k := 0;
    while ENTRY * k < fs.inodes[n].size
      invariant 0 <= k <= Count(c) && fs.St() == st && fs.disk.logged == old(fs.disk.logged)
      invariant nm in Dir(c) <==> nm in DirFrom(c, k)
      invariant nm in Dir(c) ==> Dir(c)[nm] == DirFrom(c, k)[nm]
    {
      var de := ReadEntry(fs, n, k);
      NameCmp(name, de[2..], DIRSIZ);
      if de[0] as int + 256 * de[1] as int != 0 && SameUpTo(name, de[2..], DIRSIZ) {
        return true, de[0] as int + 256 * de[1] as int, k;
      }
      Skip(c, k, nm);
      k := k + 1;
    }
    return false, 0, 0;
  }

  /** dirlink's search: the first free entry, or the end. */
  method FreeEntry(fs: Inodes, n: nat) returns (k: nat)
    requires Files(fs.disk.g, fs.St()) && IsDir(fs.St(), n)
    modifies fs, fs.disk
    ensures fs.St() == old(fs.St()) && fs.disk.logged == old(fs.disk.logged)
    ensures var c := Contents(fs.St(), n); k <= Count(c) && (k < Count(c) ==> Inum(c, k) == 0)
  {
    ghost var st := fs.St();
    k := 0;
    while ENTRY * k < fs.inodes[n].size
      invariant 0 <= k <= Count(Contents(st, n)) && fs.St() == st && fs.disk.logged == old(fs.disk.logged)
    {
      var de := ReadEntry(fs, n, k);
      if de[0] as int + 256 * de[1] as int == 0 {
        return;
      }
      k := k + 1;
    }
  }

  lemma EntryInBlock(k: nat)
    ensures BlockCount(ENTRY * k, ENTRY) == 1
  {
    var q, r := k / 64, k % 64;
    assert ENTRY * k == BSIZE * q + ENTRY * r;
  }

  /** An entry lies within one block, so a write of one that is cut short has written nothing. */
  lemma ShortEntry(c: seq<Byte>, k: nat, e: seq<Byte>, r: int)
    requires k <= Count(c) && |e| == ENTRY && (r == -1 || (0 <= r < ENTRY && WholeBlocks(ENTRY * k, r, ENTRY)))
    requires |c| % ENTRY == 0
    ensures r != -1 ==> r == 0 && Splice(c, ENTRY * k, e[..r]) == c
  {}

  lemma AtLargest(c: seq<Byte>, k: nat)
    requires k <= Count(c) && |c| % ENTRY == 0
    ensures ENTRY * k + ENTRY > MAXFILE * BSIZE ==> |c| + ENTRY > MAXFILE * BSIZE
  {}

  /**
   * dirlink: fails, leaving the map as it was, when the name is taken, the directory is at its largest or the disk is
   * full. Otherwise the map gains the name; a number that is 0 in sixteen bits gains nothing.
   */
  method DirLink(fs: Inodes, n: nat, name: seq<Byte>, inum: nat) returns (ok: bool, ghost ds: set<nat>)
    requires Files(fs.disk.g, fs.St()) && IsDir(fs.St(), n)
    modifies fs, fs.disk
    ensures Files(fs.disk.g, fs.St()) && IsDir(fs.St(), n) && OthersKept(old(fs.St()), fs.St(), n)
    ensures Cut(name, DIRSIZ) in old(DirOf(fs.St(), n)) ==> !ok
    ensures !ok ==> DirOf(fs.St(), n) == old(DirOf(fs.St(), n))
    ensures !ok ==> || Cut(name, DIRSIZ) in old(DirOf(fs.St(), n)) || Full(fs.disk.g, fs.St())
                    || old(|Contents(fs.St(), n)|) + ENTRY > MAXFILE * BSIZE
    ensures ok ==> DirOf(fs.St(), n) == Link(old(DirOf(fs.St(), n)), Cut(name, DIRSIZ), inum)
    ensures Logs(fs.disk.g, old(fs.disk.logged), fs.disk.logged, ds) && |ds| <= 2
  {
    ghost var c := Contents(fs.St(), n);
    var found, _, _ := DirLookup(fs, n, name);
    if found {
      return false, {};
    }
    Absent(c, 0, Cut(name, DIRSIZ));
    var k := FreeEntry(fs, n);
    var r;
    r, ds := Writei(fs, n, EntryBytes(name, inum), ENTRY * k);
    EntryInBlock(k);
    if r != ENTRY {
      ShortEntry(c, k, EntryBytes(name, inum), r);
      AtLargest(c, k);
      return false, ds;
    }
    assert EntryBytes(name, inum)[..r] == EntryBytes(name, inum);
    LinkFrom(c, k, name, inum, 0);
    return true, ds;
  }
}
