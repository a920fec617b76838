/** Byte-by-byte access to user memory through a page table, the reference for copyout and copyin. */
module CopySpec {
  import opened PageTable
  import opened VmSpec

  /** What copyout requires of a page: valid, user and writable. */
  predicate CanStore(m: Memory, root: nat, v: nat) {
    v < MAXVPN && IsValid(Lookup(m, root, v)) && User(Lookup(m, root, v)) && Writable(Lookup(m, root, v))
  }

  /** What copyin requires of a page: walkaddr yields a nonzero address. */
  predicate CanLoad(m: Memory, root: nat, v: nat) {
    v < MAXVPN && IsValid(Lookup(m, root, v)) && User(Lookup(m, root, v)) && Pte2Pa(Lookup(m, root, v)) != 0
  }

  /** User pages are pages of bytes, not tables. */
  ghost predicate UserBytes(m: Memory, root: nat) {
    forall v {:trigger UserPage(m, root, v)} :: 0 <= v < MAXVPN ==> UserPage(m, root, v)
  }

  ghost predicate UserPage(m: Memory, root: nat, v: nat) {
    IsValid(Lookup(m, root, v)) && User(Lookup(m, root, v)) ==>
      Pte2Pa(Lookup(m, root, v)) in m && m[Pte2Pa(Lookup(m, root, v))].Bytes?
      && |m[Pte2Pa(Lookup(m, root, v))].bytes| == PGSIZE
  }

  /** One byte at offset o of page v. */
  function StoreByte(m: Memory, root: nat, v: nat, o: nat, b: nat): Memory {
    var pa := Pte2Pa(Lookup(m, root, v));
    if pa in m && m[pa].Bytes? && o < |m[pa].bytes| then m[pa := Bytes(m[pa].bytes[o := b])] else m
  }

  /** The bytes bs at va, va+1, ..., one store at a time. */
  function StoreBytes(m: Memory, root: nat, va: nat, bs: seq<nat>): Memory
    decreases |bs|
  {
    if bs == [] then m else StoreBytes(StoreByte(m, root, va / PGSIZE, va % PGSIZE, bs[0]), root, va + 1, bs[1..])
  }

  function LoadByte(m: Memory, root: nat, va: nat): nat {
    var pa := Pte2Pa(Lookup(m, root, va / PGSIZE));
    if pa in m && m[pa].Bytes? && va % PGSIZE < |m[pa].bytes| then m[pa].bytes[va % PGSIZE] else 0
  }

  /** Only pages of bytes differ, so every table reads as before. */
  ghost predicate SameTables(m: Memory, m': Memory) {
    m'.Keys == m.Keys && forall q :: q in m ==>
        if m[q].Table? then m'[q] == m[q] else m'[q].Bytes? && |m'[q].bytes| == |m[q].bytes|
  }

  lemma SameTablesMap(m: Memory, m': Memory, root: nat, v: nat)
    requires SameTables(m, m')
    ensures Lookup(m', root, v) == Lookup(m, root, v)
  {
    assert forall t, i {:trigger Entry(m', t, i)} :: Entry(m', t, i) == Entry(m, t, i);
  }

  lemma {:induction false} StoreKeepsTables(m: Memory, root: nat, va: nat, bs: seq<nat>)
    ensures SameTables(m, StoreBytes(m, root, va, bs))
    decreases |bs|
  {
    if bs != [] {
      var m1 := StoreByte(m, root, va / PGSIZE, va % PGSIZE, bs[0]);
      StoreKeepsTables(m1, root, va + 1, bs[1..]);
    }
  }

  lemma {:induction false} StoreAppend(m: Memory, root: nat, va: nat, a: seq<nat>, b: seq<nat>)
    ensures StoreBytes(m, root, va, a + b) == StoreBytes(StoreBytes(m, root, va, a), root, va + |a|, b)
    decreases |a|
  {
    if a == [] {
      assert a + b == b;
    } else {
      var m1 := StoreByte(m, root, va / PGSIZE, va % PGSIZE, a[0]);
      assert (a + b)[0] == a[0] && (a + b)[1..] == a[1..] + b;
      StoreAppend(m1, root, va + 1, a[1..], b);
    }
  }

  /** memmove of c to offset o. */
  function Splice(bytes: seq<nat>, o: nat, c: seq<nat>): seq<nat>
    requires o + |c| <= |bytes|
  {
    bytes[..o] + c + bytes[o + |c|..]
  }

  lemma PageParts(v: nat, o: nat)
    requires o < PGSIZE
    ensures (v * PGSIZE + o) / PGSIZE == v && (v * PGSIZE + o) % PGSIZE == o
  {
  }

  /** A memmove within one page is the same as its single byte stores. */
  lemma {:induction false} ChunkStores(m: Memory, root: nat, v: nat, o: nat, c: seq<nat>)
    requires var pa := Pte2Pa(Lookup(m, root, v)); pa in m && m[pa].Bytes? && |m[pa].bytes| == PGSIZE
    requires o + |c| <= PGSIZE
    ensures var pa := Pte2Pa(Lookup(m, root, v));
            StoreBytes(m, root, v * PGSIZE + o, c) == m[pa := Bytes(Splice(m[pa].bytes, o, c))]
    decreases |c|
  {
    var pa := Pte2Pa(Lookup(m, root, v));
    if c == [] {
      assert Splice(m[pa].bytes, o, c) == m[pa].bytes;
      assert m == m[pa := m[pa]];
    } else {
      PageParts(v, o);
      var m1 := StoreByte(m, root, v, o, c[0]);
      assert SameTables(m, m1);
      SameTablesMap(m, m1, root, v);
      ChunkStores(m1, root, v, o + 1, c[1..]);
      assert Splice(m1[pa].bytes, o + 1, c[1..]) == Splice(m[pa].bytes, o, c);
      assert v * PGSIZE + o + 1 == v * PGSIZE + (o + 1);
    }
  }

  /** A stored byte is what a later load of the address gives, and a load of any other physical byte is unchanged. */
  lemma StoreThenLoad(m: Memory, root: nat, va: nat, b: nat, wa: nat)
    requires var pa := Pte2Pa(Lookup(m, root, va / PGSIZE)); pa in m && m[pa].Bytes? && |m[pa].bytes| == PGSIZE
    ensures var m' := StoreByte(m, root, va / PGSIZE, va % PGSIZE, b);
            LoadByte(m', root, wa) ==
            if && Pte2Pa(Lookup(m, root, wa / PGSIZE)) == Pte2Pa(Lookup(m, root, va / PGSIZE))
               && wa % PGSIZE == va % PGSIZE then b
            else LoadByte(m, root, wa)
  {
    var m' := StoreByte(m, root, va / PGSIZE, va % PGSIZE, b);
    assert SameTables(m, m');
    SameTablesMap(m, m', root, wa / PGSIZE);
  }

  /** UserBytes survives stores. */
  lemma StoreKeepsUser(m: Memory, m': Memory, root: nat, pos: map<nat, Pos>)
    requires SameTables(m, m') && UserBytes(m, root) && IsTree(m, root, pos)
    ensures UserBytes(m', root) && IsTree(m', root, pos) && SameMap(m, m', root)
  {
    forall v {:trigger UserPage(m', root, v)} | 0 <= v < MAXVPN ensures UserPage(m', root, v) {
      SameTablesMap(m, m', root, v);
      assert UserPage(m, root, v);
    }
    forall t | t in pos ensures t in m' && t in m && m'[t] == m[t] { assert NodeOk(m, pos, t); }
    TreeFrame(m, m', root, pos);
  }

  function PageOf(a: nat): nat { a / PGSIZE }

  /** Every address from va up to va + k lies on a page that copyout may write. */
  ghost predicate StoresUpTo(m: Memory, root: nat, va: nat, k: nat) {
    forall a :: va <= a < va + k ==> CanStore(m, root, PageOf(a))
  }

  lemma StoresMore(m: Memory, root: nat, va: nat, k: nat, n: nat, v: nat)
    requires StoresUpTo(m, root, va, k) && CanStore(m, root, v)
    requires forall a :: va + k <= a < va + k + n ==> PageOf(a) == v
    ensures StoresUpTo(m, root, va, k + n)
  {
    forall a | va <= a < va + k + n ensures CanStore(m, root, PageOf(a)) {
      assert a < va + k || PageOf(a) == v;
    }
  }

  lemma SamePage(a0: nat, v: nat, o: nat, n: nat)
    requires v == a0 / PGSIZE && o == a0 % PGSIZE && o + n <= PGSIZE
    ensures a0 == v * PGSIZE + o
    ensures forall a :: a0 <= a < a0 + n ==> PageOf(a) == v
  {
    forall a | a0 <= a < a0 + n ensures PageOf(a) == v {
      PageParts(v, o + (a - a0));
      assert a == v * PGSIZE + (o + (a - a0));
    }
  }

  lemma SameStore(m: Memory, m': Memory, root: nat, v: nat)
    requires SameMap(m, m', root)
    ensures CanStore(m', root, v) <==> CanStore(m, root, v)
  {
  }

  /** dst holds the bytes at va, va+1, ..., each from a page that copyin may read. */
  ghost predicate LoadsUpTo(m: Memory, root: nat, va: nat, dst: seq<nat>) {
    forall i: nat {:trigger LoadedAt(m, root, va, dst, i)} :: i < |dst| ==> LoadedAt(m, root, va, dst, i)
  }

  ghost predicate LoadedAt(m: Memory, root: nat, va: nat, dst: seq<nat>, i: nat)
    requires i < |dst|
  {
    CanLoad(m, root, PageOf(va + i)) && dst[i] == LoadByte(m, root, va + i)
  }

  lemma LoadsMore(m: Memory, root: nat, va: nat, dst: seq<nat>, v: nat, o: nat, n: nat, page: seq<nat>)
    requires LoadsUpTo(m, root, va, dst) && CanLoad(m, root, v)
    requires v == (va + |dst|) / PGSIZE && o == (va + |dst|) % PGSIZE && o + n <= PGSIZE
    requires var pa := Pte2Pa(Lookup(m, root, v));
             pa in m && m[pa].Bytes? && |m[pa].bytes| == PGSIZE && page == m[pa].bytes[o..o + n]
    ensures LoadsUpTo(m, root, va, dst + page)
  {
    var all := dst + page;
    forall i: nat | i < |all|
      ensures LoadedAt(m, root, va, all, i)
    {
      if i < |dst| {
        assert LoadedAt(m, root, va, dst, i);
      } else {
        var j := o + (i - |dst|);
        assert va + i == v * PGSIZE + j;
        PageParts(v, j);
      }
    }
  }

  /** The state of copyout after k bytes, and after the n of the next page. */
  ghost predicate Stored(m0: Memory, m: Memory, root: nat, va: nat, src: seq<nat>, k: nat) {
    k <= |src| && m == StoreBytes(m0, root, va, src[..k]) && StoresUpTo(m0, root, va, k)
  }

  lemma StoredMore(m0: Memory, m: Memory, m': Memory, root: nat, va: nat, src: seq<nat>, k: nat, n: nat, v: nat)
    requires Stored(m0, m, root, va, src, k) && k + n <= |src| && CanStore(m0, root, v)
    requires m' == StoreBytes(m, root, va + k, src[k..k + n])
    requires forall a :: va + k <= a < va + k + n ==> PageOf(a) == v
    ensures Stored(m0, m', root, va, src, k + n)
  {
    assert src[..k + n] == src[..k] + src[k..k + n];
    StoreAppend(m0, root, va, src[..k], src[k..k + n]);
    StoresMore(m0, root, va, k, n, v);
  }
}
