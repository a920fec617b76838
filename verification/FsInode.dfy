/** Inodes' block maps, and who owns which disk block. */
module FsInode {

  import opened FsBytes
  import opened FsBlocks

  const NDIRECT := 12
  const MAXFILE := 268

  datatype Inode = Inode(addrs: seq<nat>, size: nat)

  // The places that can name a disk block.
  datatype Slot = Direct(inum: nat, i: nat) | Indirect(inum: nat) | Entry(inum: nat, j: nat)

  /**
   * Disk contents, the inodes, and as history the owner of each block. Slots in dead count as empty although their
   * words still stand: itrunc frees the blocks an indirect block lists without rewriting it.
   */
  datatype State = State(data: Data, inodes: map<nat, Inode>, owner: map<nat, Slot>, dead: set<Slot>)

  predicate IsSlot(st: State, s: Slot) {
    && s.inum in st.inodes && |st.inodes[s.inum].addrs| == NDIRECT + 1
    && (s.Direct? ==> s.i < NDIRECT) && (s.Entry? ==> s.j < NINDIRECT)
  }

  /** The block a slot names, 0 for none. */
  function Addr(st: State, s: Slot): nat
    requires IsSlot(st, s)
  {
    var addrs := st.inodes[s.inum].addrs;
    if s in st.dead then 0
    else match s
      case Direct(_, i) => addrs[i]
      case Indirect(_) => addrs[NDIRECT]
      case Entry(_, j) => if addrs[NDIRECT] != 0 && addrs[NDIRECT] in st.data then Word(st.data[addrs[NDIRECT]], j)
      else 0
  }

  /** What a slot names is a data block, owned by that slot. */
  ghost predicate Owns(g: Geometry, st: State, s: Slot) {
    IsSlot(st, s) && Addr(st, s) != 0 ==>
        g.first <= Addr(st, s) < g.size && Addr(st, s) in st.owner && st.owner[Addr(st, s)] == s
  }

  /** The owner of a block does name it. */
  ghost predicate Owned(g: Geometry, st: State, b: nat) {
    b in st.owner ==> g.first <= b < g.size && IsSlot(st, st.owner[b]) && Addr(st, st.owner[b]) == b
  }

  /** A block's bit is set just when it is metadata or has an owner. */
  ghost predicate Accounted(g: Geometry, st: State, b: nat) {
    b < g.size ==> (Used(g, st.data, b) <==> b < g.first || b in st.owner)
  }

  ghost predicate Inv(g: Geometry, st: State) {
    && Layout(g, st.data)
    && (forall n {:trigger st.inodes[n]} :: n in st.inodes ==> |st.inodes[n].addrs| == NDIRECT + 1)
    && (forall s :: s in st.dead ==> s.Entry?)
    && (forall s {:trigger Owns(g, st, s)} :: Owns(g, st, s))
    && (forall b: nat {:trigger Owned(g, st, b)} :: Owned(g, st, b))
    && (forall b: nat {:trigger Accounted(g, st, b)} :: Accounted(g, st, b))
  }

  // ---------------------------------------------------------------- one slot at a time

  /** The two states have the same slots, and name the same blocks but for slot s, which names a in st'. */
  ghost predicate SlotChanged(st: State, st': State, s: Slot, a: nat) {
    && (forall t {:trigger IsSlot(st', t)} :: IsSlot(st', t) <==> IsSlot(st, t))
    && IsSlot(st, s)
    && (forall t {:trigger Addr(st', t)} :: IsSlot(st, t) ==> Addr(st', t) == if t == s then a else Addr(st, t))
  }

  /** Giving an unowned block to an empty slot. */
  lemma Given(g: Geometry, st: State, st': State, s: Slot, a: nat)
    requires Inv(g, st) && Addr0(st, s) && g.first <= a < g.size && a !in st.owner
    requires Layout(g, st'.data) && (forall n :: n in st'.inodes ==> |st'.inodes[n].addrs| == NDIRECT + 1)
    requires (forall t :: t in st'.dead ==> t.Entry?)
    requires SlotChanged(st, st', s, a) && st'.owner == st.owner[a := s]
    requires forall b: nat {:trigger Used(g, st'.data, b)} :: b < g.size ==>
                 (Used(g, st'.data, b) <==> b == a || Used(g, st.data, b))
    ensures Inv(g, st')
  {
    forall t ensures Owns(g, st', t) {
      assert Owns(g, st, t);
      assert IsSlot(st', t) <==> IsSlot(st, t);
    }
    forall b: nat ensures Owned(g, st', b) {
      assert Owned(g, st, b);
      assert b in st'.owner ==> (IsSlot(st', st'.owner[b]) <==> IsSlot(st, st'.owner[b]));
    }
    forall b: nat ensures Accounted(g, st', b) {
      assert Accounted(g, st, b);
    }
  }

  ghost predicate Addr0(st: State, s: Slot) { IsSlot(st, s) && Addr(st, s) == 0 }

  /** Taking its block from a slot. */
  lemma Taken(g: Geometry, st: State, st': State, s: Slot, a: nat)
    requires Inv(g, st) && IsSlot(st, s) && Addr(st, s) == a != 0
    requires Layout(g, st'.data) && (forall n :: n in st'.inodes ==> |st'.inodes[n].addrs| == NDIRECT + 1)
    requires (forall t :: t in st'.dead ==> t.Entry?)
    requires SlotChanged(st, st', s, 0) && st'.owner == st.owner - {a}
    requires forall b: nat {:trigger Used(g, st'.data, b)} :: b < g.size ==>
                 (Used(g, st'.data, b) <==> b != a && Used(g, st.data, b))
    ensures Inv(g, st')
  {
    assert Owns(g, st, s);
    forall t ensures Owns(g, st', t) {
      assert Owns(g, st, t);
      assert IsSlot(st', t) <==> IsSlot(st, t);
    }
    forall b: nat ensures Owned(g, st', b) {
      assert Owned(g, st, b);
      assert b in st'.owner ==> (IsSlot(st', st'.owner[b]) <==> IsSlot(st, st'.owner[b]));
    }
    forall b: nat ensures Accounted(g, st', b) {
      assert Accounted(g, st, b);
    }
  }

  // ---------------------------------------------------------------- the updates of bmap and itrunc

  // The state after balloc returned r, before the block has an owner.
  function Fresh(g: Geometry, st: State, r: nat): State
    requires MapBlock(g, r) in st.data && !Used(g, st.data, r)
  {
    State(Mark(g, st.data, r)[r := Zero()], st.inodes, st.owner, st.dead)
  }

  // Slot i of inode n's address list set to a, where i == NDIRECT is the indirect one.
  function SetAddr(st: State, n: nat, i: nat, a: nat): State
    requires n in st.inodes && i < |st.inodes[n].addrs|
  {
    State(st.data, st.inodes[n := Inode(st.inodes[n].addrs[i := a], st.inodes[n].size)], st.owner, st.dead)
  }

  function TopSlot(n: nat, i: nat): Slot { if i < NDIRECT then Direct(n, i) else Indirect(n) }

  lemma UnownedIsFree(g: Geometry, st: State, r: nat)
    requires Inv(g, st) && r < g.size && !Used(g, st.data, r)
    ensures g.first <= r && r !in st.owner && MapBlock(g, r) in st.data && MapBlock(g, r) < g.first
  {
    assert Accounted(g, st, r);
    MapIsMetadata(g, st.data, r);
  }

  /** An indirect block is a data block, owned by its inode's indirect slot. */
  lemma IndirectBlock(g: Geometry, st: State, n: nat)
    requires Inv(g, st) && n in st.inodes
    ensures var ia := st.inodes[n].addrs[NDIRECT];
            ia != 0 ==> g.first <= ia < g.size && ia in st.data && ia in st.owner && st.owner[ia] == Indirect(n)
  {
    assert Owns(g, st, Indirect(n));
  }

  lemma FreshUsed(g: Geometry, st: State, r: nat, b: nat)
    requires Inv(g, st) && r < g.size && !Used(g, st.data, r) && b < g.size
    ensures MapBlock(g, r) in st.data && (Used(g, Fresh(g, st, r).data, b) <==> b == r || Used(g, st.data, b))
  {
    UnownedIsFree(g, st, r);
    UsedAfterMark(g, st.data, r, b);
    UsedElsewhere(g, Mark(g, st.data, r), r, Zero(), b);
  }

  lemma TopSlotGiven(g: Geometry, st: State, n: nat, i: nat, r: nat)
    requires Inv(g, st) && st.dead == {} && n in st.inodes && i <= NDIRECT && st.inodes[n].addrs[i] == 0 && r < g.size
    requires !Used(g, st.data, r)
    ensures MapBlock(g, r) in st.data && SlotChanged(st, SetAddr(Fresh(g, st, r), n, i, r), TopSlot(n, i), r)
  {
    UnownedIsFree(g, st, r);
    var st' := SetAddr(Fresh(g, st, r), n, i, r);
    forall t | IsSlot(st, t)
      ensures Addr(st', t) == if t == TopSlot(n, i) then r else Addr(st, t)
    {
      IndirectBlock(g, st, t.inum);
      if t.Entry? {
        ZeroWord(t.j);
      }
    }
  }

  /** bmap fills an empty slot of the inode's own list. */
  lemma TopSlotFilled(g: Geometry, st: State, n: nat, i: nat, r: nat)
    requires Inv(g, st) && st.dead == {} && n in st.inodes && i <= NDIRECT && st.inodes[n].addrs[i] == 0 && r < g.size
    requires !Used(g, st.data, r)
    ensures MapBlock(g, r) in st.data
    ensures var st' := Give(SetAddr(Fresh(g, st, r), n, i, r), TopSlot(n, i), r);
            Inv(g, st') && SlotChanged(st, st', TopSlot(n, i), r)
  {
    UnownedIsFree(g, st, r);
    var st1 := SetAddr(Fresh(g, st, r), n, i, r);
    var st' := Give(st1, TopSlot(n, i), r);
    TopSlotGiven(g, st, n, i, r);
    assert SlotChanged(st, st', TopSlot(n, i), r) by {
      forall t | IsSlot(st, t)
        ensures Addr(st', t) == Addr(st1, t)
      {}
    }
    forall b: nat | b < g.size
      ensures Used(g, st'.data, b) <==> b == r || Used(g, st.data, b)
    {
      FreshUsed(g, st, r, b);
    }
    Given(g, st, st', TopSlot(n, i), r);
  }

  // Word j of inode n's indirect block set to a.
  function SetEntry(st: State, n: nat, j: nat, a: nat): State
    requires n in st.inodes && |st.inodes[n].addrs| == NDIRECT + 1 && j < NINDIRECT && a < 0x1_0000_0000
    requires st.inodes[n].addrs[NDIRECT] in st.data
  {
    var ia := st.inodes[n].addrs[NDIRECT];
    State(st.data[ia := PutWord(st.data[ia], j, a)], st.inodes, st.owner, st.dead)
  }

  function Give(st: State, s: Slot, a: nat): State { State(st.data, st.inodes, st.owner[a := s], st.dead) }

  lemma EntryGiven(g: Geometry, st: State, n: nat, j: nat, r: nat)
    requires Inv(g, st) && st.dead == {} && n in st.inodes && j < NINDIRECT && st.inodes[n].addrs[NDIRECT] != 0
    requires r < g.size && !Used(g, st.data, r)
    ensures MapBlock(g, r) in st.data && st.inodes[n].addrs[NDIRECT] in st.data
    ensures SlotChanged(st, SetEntry(Fresh(g, st, r), n, j, r), Entry(n, j), r)
  {
    UnownedIsFree(g, st, r);
    IndirectBlock(g, st, n);
    var st', ia := SetEntry(Fresh(g, st, r), n, j, r), st.inodes[n].addrs[NDIRECT];
    forall t | IsSlot(st, t)
      ensures Addr(st', t) == if t == Entry(n, j) then r else Addr(st, t)
    {
      IndirectBlock(g, st, t.inum);
      if t.Entry? {
        PutWordAt(st.data[ia], j, r, t.j);
      }
    }
  }

  /** bmap fills an empty word of the indirect block. */
  lemma EntryFilled(g: Geometry, st: State, n: nat, j: nat, r: nat)
    requires Inv(g, st) && st.dead == {} && n in st.inodes && j < NINDIRECT && st.inodes[n].addrs[NDIRECT] != 0
    requires r < g.size && !Used(g, st.data, r)
    requires Addr0(st, Entry(n, j))
    ensures MapBlock(g, r) in st.data && st.inodes[n].addrs[NDIRECT] in st.data
    ensures var st' := Give(SetEntry(Fresh(g, st, r), n, j, r), Entry(n, j), r);
            Inv(g, st') && SlotChanged(st, st', Entry(n, j), r)
  {
    UnownedIsFree(g, st, r);
    IndirectBlock(g, st, n);
    EntryGiven(g, st, n, j, r);
    var st1 := SetEntry(Fresh(g, st, r), n, j, r);
    var st', ia := Give(st1, Entry(n, j), r), st.inodes[n].addrs[NDIRECT];
    assert SlotChanged(st, st', Entry(n, j), r) by {
      forall t | IsSlot(st, t)
        ensures Addr(st', t) == Addr(st1, t)
      {}
    }
    forall b: nat | b < g.size
      ensures Used(g, st'.data, b) <==> b == r || Used(g, st.data, b)
    {
      FreshUsed(g, st, r, b);
      UsedElsewhere(g, Fresh(g, st, r).data, ia, st1.data[ia], b);
    }
    Given(g, st, st', Entry(n, j), r);
  }

  // ---------------------------------------------------------------- giving blocks back

  // The state after bfree of the block a that slot s names, and after the slot is cleared.
  function Freed(g: Geometry, st: State, a: nat): State
    requires Used(g, st.data, a)
  {
    State(Unmark(g, st.data, a), st.inodes, st.owner - {a}, st.dead)
  }

  lemma OwnedIsUsed(g: Geometry, st: State, s: Slot)
    requires Inv(g, st) && IsSlot(st, s) && Addr(st, s) != 0
    ensures var a := Addr(st, s);
            g.first <= a < g.size && Used(g, st.data, a) && MapBlock(g, a) < g.first && a in st.owner
            && st.owner[a] == s
  {
    assert Owns(g, st, s);
    assert Accounted(g, st, Addr(st, s));
    MapIsMetadata(g, st.data, Addr(st, s));
  }

  lemma FreedUsed(g: Geometry, st: State, a: nat)
    requires Used(g, st.data, a)
    ensures forall b: nat {:trigger Used(g, Unmark(g, st.data, a), b)} :: b < g.size ==>
                (Used(g, Unmark(g, st.data, a), b) <==> b != a && Used(g, st.data, b))
  {
    forall b: nat | b < g.size
      ensures Used(g, Unmark(g, st.data, a), b) <==> b != a && Used(g, st.data, b)
    {
      UsedAfterUnmark(g, st.data, a, b);
    }
  }

  /** itrunc clears a slot of the inode's own list; the indirect one only once its words no longer count. */
  lemma TopSlotFreed(g: Geometry, st: State, n: nat, i: nat)
    requires Inv(g, st) && n in st.inodes && i <= NDIRECT && st.inodes[n].addrs[i] != 0
    requires i == NDIRECT ==> forall j: nat :: j < NINDIRECT ==> Addr0(st, Entry(n, j))
    ensures Used(g, st.data, st.inodes[n].addrs[i])
    ensures Inv(g, SetAddr(Freed(g, st, st.inodes[n].addrs[i]), n, i, 0))
  {
    var a, s := st.inodes[n].addrs[i], TopSlot(n, i);
    OwnedIsUsed(g, st, s);
    var st' := SetAddr(Freed(g, st, a), n, i, 0);
    forall t | IsSlot(st, t)
      ensures Addr(st', t) == if t == s then 0 else Addr(st, t)
    {
      IndirectBlock(g, st, t.inum);
      assert t.Entry? && t.inum == n && i == NDIRECT ==> Addr0(st, Entry(n, t.j));
    }
    FreedUsed(g, st, a);
    Taken(g, st, st', s, a);
  }

  function Bury(st: State, s: Slot): State { State(st.data, st.inodes, st.owner, st.dead + {s}) }

  /** itrunc frees what a word of the indirect block names, and leaves the word. */
  lemma EntryFreed(g: Geometry, st: State, n: nat, j: nat)
    requires Inv(g, st) && n in st.inodes && j < NINDIRECT && IsSlot(st, Entry(n, j)) && Addr(st, Entry(n, j)) != 0
    ensures Used(g, st.data, Addr(st, Entry(n, j)))
    ensures Inv(g, Bury(Freed(g, st, Addr(st, Entry(n, j))), Entry(n, j)))
  {
    var s := Entry(n, j);
    var a := Addr(st, s);
    OwnedIsUsed(g, st, s);
    var st' := Bury(Freed(g, st, a), s);
    forall t | IsSlot(st, t)
      ensures Addr(st', t) == if t == s then 0 else Addr(st, t)
    {
      IndirectBlock(g, st, t.inum);
    }
    FreedUsed(g, st, a);
    Taken(g, st, st', s, a);
  }

  // ---------------------------------------------------------------- what bmap leaves alone

  /** A slot that names file data names the same block, with the same contents. */
  ghost predicate Kept(st: State, st': State, t: Slot) {
    IsSlot(st, t) ==>
      && IsSlot(st', t) && Addr(st', t) == Addr(st, t)
      && (Addr(st, t) != 0 && Addr(st, t) in st.data ==>
             Addr(st, t) in st'.data && st'.data[Addr(st, t)] == st.data[Addr(st, t)])
  }

  /** No file data but slot s's is affected, and no inode's size. */
  ghost predicate MapKept(st: State, st': State, s: Slot) {
    && st'.inodes.Keys == st.inodes.Keys
    && (forall n {:trigger st'.inodes[n]} :: n in st.inodes ==> st'.inodes[n].size == st.inodes[n].size)
    && (forall t {:trigger Kept(st, st', t)} :: t != s && !t.Indirect? ==> Kept(st, st', t))
  }

  lemma MapKeptTwice(st: State, st1: State, st2: State, s: Slot)
    requires MapKept(st, st1, s) && MapKept(st1, st2, s)
    ensures MapKept(st, st2, s)
  {
    forall t | t != s && !t.Indirect?
      ensures Kept(st, st2, t)
    {
      assert Kept(st, st1, t) && Kept(st1, st2, t);
    }
  }

  ghost predicate BlockSame(d: Data, d': Data, c: nat) { c in d && c in d' && d'[c] == d[c] }

  /**
    A change at slot u keeps file data elsewhere, if the blocks written are u's new one, an indirect block or
    the free map.
   */
  lemma ChangeKeeps(g: Geometry, st: State, st': State, u: Slot, s: Slot, r: nat, ia: nat)
    requires Inv(g, st) && SlotChanged(st, st', u, r) && (u == s || u.Indirect?) && r !in st.owner
    requires st'.inodes.Keys == st.inodes.Keys
    requires forall n {:trigger st'.inodes[n]} :: n in st.inodes ==> st'.inodes[n].size == st.inodes[n].size
    requires ia in st.owner ==> st.owner[ia].Indirect?
    requires forall c: nat {:trigger BlockSame(st.data, st'.data, c)} :: g.first <= c < g.size && c != r && c != ia ==>
                 BlockSame(st.data, st'.data, c)
    ensures MapKept(st, st', s)
  {
    forall t | t != s && !t.Indirect?
      ensures Kept(st, st', t)
    {
      assert Owns(g, st, t);
      assert IsSlot(st', t) <==> IsSlot(st, t);
      assert IsSlot(st, t) && Addr(st, t) != 0 ==> BlockSame(st.data, st'.data, Addr(st, t));
    }
  }

  function SlotOf(n: nat, bn: nat): Slot { if bn < NDIRECT then Direct(n, bn) else Entry(n, bn - NDIRECT) }

  /** What bmap does: it finds the block of slot s, or puts a zeroed one there, or finds the disk full. */
  ghost predicate Mapped(g: Geometry, st: State, st': State, s: Slot, addr: nat) {
    && IsSlot(st, s) && IsSlot(st', s) && MapKept(st, st', s) && Addr(st', s) == addr
    && (Addr(st, s) != 0 ==> st' == st)
    && (Addr(st, s) == 0 && addr != 0 ==>
           g.first <= addr < g.size && addr !in st.owner && addr in st'.data && st'.data[addr] == Zero())
    && (addr == 0 ==> forall b: nat {:trigger Used(g, st'.data, b)} :: b < g.size ==> Used(g, st'.data, b))
  }

  lemma TopSlotKeeps(g: Geometry, st: State, n: nat, i: nat, r: nat, s: Slot)
    requires Inv(g, st) && st.dead == {} && n in st.inodes && i <= NDIRECT && st.inodes[n].addrs[i] == 0 && r < g.size
    requires !Used(g, st.data, r)
    requires TopSlot(n, i) == s || i == NDIRECT
    ensures MapBlock(g, r) in st.data && MapKept(st, Give(SetAddr(Fresh(g, st, r), n, i, r), TopSlot(n, i), r), s)
  {
    UnownedIsFree(g, st, r);
    TopSlotFilled(g, st, n, i, r);
    assert Owned(g, st, 0);
    ChangeKeeps(g, st, Give(SetAddr(Fresh(g, st, r), n, i, r), TopSlot(n, i), r), TopSlot(n, i), s, r, 0);
  }

  lemma EntryKeeps(g: Geometry, st: State, n: nat, j: nat, r: nat)
    requires Inv(g, st) && st.dead == {} && n in st.inodes && j < NINDIRECT && st.inodes[n].addrs[NDIRECT] != 0
    requires r < g.size && !Used(g, st.data, r)
    requires Addr0(st, Entry(n, j))
    ensures MapBlock(g, r) in st.data && st.inodes[n].addrs[NDIRECT] in st.data
    ensures MapKept(st, Give(SetEntry(Fresh(g, st, r), n, j, r), Entry(n, j), r), Entry(n, j))
  {
    UnownedIsFree(g, st, r);
    IndirectBlock(g, st, n);
    EntryFilled(g, st, n, j, r);
    var st' := Give(SetEntry(Fresh(g, st, r), n, j, r), Entry(n, j), r);
    ChangeKeeps(g, st, st', Entry(n, j), Entry(n, j), r, st.inodes[n].addrs[NDIRECT]);
  }

  // ---------------------------------------------------------------- what itrunc does

  /** Only blocks of inode n have lost their owner, and no data block has changed. */
  ghost predicate Released(g: Geometry, st: State, st': State, n: nat) {
    && (forall b {:trigger b in st'.owner} :: b in st'.owner ==> b in st.owner && st'.owner[b] == st.owner[b])
    && (forall b {:trigger b in st.owner} :: b in st.owner && st.owner[b].inum != n ==> b in st'.owner)
    && (forall c: nat {:trigger BlockSame(st.data, st'.data, c)} :: g.first <= c < g.size ==>
           BlockSame(st.data, st'.data, c))
  }

  /** The inode's block list without its first k entries. */
  function Dropped(p: Inode, k: nat): Inode
    requires |p.addrs| == NDIRECT + 1 && k <= NDIRECT + 1
  {
    Inode(seq(k, i => 0) + p.addrs[k..], p.size)
  }

  function NoAddrs(): seq<nat> { seq(NDIRECT + 1, i => 0) }

  ghost predicate Truncated(g: Geometry, st: State, st': State, n: nat) {
    && n in st.inodes && st'.inodes == st.inodes[n := Inode(NoAddrs(), 0)]
    && Released(g, st, st', n)
    && (forall b {:trigger b in st'.owner} :: b in st'.owner ==> st'.owner[b].inum != n)
  }

  lemma StillReleased(g: Geometry, st0: State, st: State, st': State, n: nat, a: nat)
    requires Inv(g, st) && Released(g, st0, st, n) && a in st.owner && st.owner[a].inum == n
    requires st'.owner == st.owner - {a}
    requires Used(g, st.data, a) && st'.data == Unmark(g, st.data, a) && MapBlock(g, a) < g.first
    ensures Released(g, st0, st', n)
  {
    forall c: nat | g.first <= c < g.size
      ensures BlockSame(st0.data, st'.data, c)
    {
      assert BlockSame(st0.data, st.data, c);
    }
  }

  lemma NothingReleased(g: Geometry, st: State, n: nat)
    requires Layout(g, st.data)
    ensures Released(g, st, st, n)
  {}

  lemma NoBlocksLeft(g: Geometry, st: State, n: nat)
    requires Inv(g, st) && n in st.inodes && forall i :: 0 <= i <= NDIRECT ==> st.inodes[n].addrs[i] == 0
    ensures forall b {:trigger b in st.owner} :: b in st.owner ==> st.owner[b].inum != n
  {
    forall b | b in st.owner
      ensures st.owner[b].inum != n
    {
      assert Owned(g, st, b) && Layout(g, st.data);
    }
  }

  ghost predicate DeadOf(st: State, n: nat) { forall s :: s in st.dead ==> s.Entry? && s.inum == n }

  /** With no indirect block, none of its words count, dead or not. */
  lemma Exhume(g: Geometry, st: State, n: nat)
    requires Inv(g, st) && n in st.inodes && DeadOf(st, n) && st.inodes[n].addrs[NDIRECT] == 0
    ensures Inv(g, State(st.data, st.inodes, st.owner, {}))
  {
    var st' := State(st.data, st.inodes, st.owner, {});
    forall t | IsSlot(st, t)
      ensures IsSlot(st', t) && Addr(st', t) == Addr(st, t)
    {}
    forall t ensures Owns(g, st', t) {
      assert Owns(g, st, t);
      assert IsSlot(st', t) <==> IsSlot(st, t);
    }
    forall b: nat ensures Owned(g, st', b) {
      assert Owned(g, st, b);
    }
    forall b: nat ensures Accounted(g, st', b) {
      assert Accounted(g, st, b);
    }
  }

  lemma StillEmpty(g: Geometry, st: State, st': State, n: nat, j: nat)
    requires Inv(g, st) && n in st.inodes && st'.inodes == st.inodes && st'.dead == st.dead + {Entry(n, j)}
    requires j < NINDIRECT
    requires forall c: nat {:trigger BlockSame(st.data, st'.data, c)} :: g.first <= c < g.size ==>
                 BlockSame(st.data, st'.data, c)
    requires forall j': nat {:trigger Addr0(st, Entry(n, j'))} :: j' < j ==> Addr0(st, Entry(n, j'))
    ensures forall j': nat {:trigger Addr0(st', Entry(n, j'))} :: j' <= j ==> Addr0(st', Entry(n, j'))
  {
    IndirectBlock(g, st, n);
    var ia := st.inodes[n].addrs[NDIRECT];
    assert ia != 0 ==> BlockSame(st.data, st'.data, ia);
    forall j': nat | j' <= j
      ensures Addr0(st', Entry(n, j'))
    {
      assert j' < j ==> Addr0(st, Entry(n, j'));
    }
  }

  /** The size of an inode plays no part in who owns what. */
  lemma SizeOnly(g: Geometry, st: State, st': State, n: nat)
    requires Inv(g, st) && n in st.inodes && st'.data == st.data && st'.owner == st.owner && st'.dead == st.dead
    requires n in st'.inodes && st'.inodes == st.inodes[n := Inode(st.inodes[n].addrs, st'.inodes[n].size)]
    ensures Inv(g, st')
  {
    forall t | IsSlot(st, t)
      ensures IsSlot(st', t) && Addr(st', t) == Addr(st, t)
    {}
    forall t ensures Owns(g, st', t) {
      assert Owns(g, st, t);
      assert IsSlot(st', t) <==> IsSlot(st, t);
    }
    forall b: nat ensures Owned(g, st', b) {
      assert Owned(g, st, b);
    }
    forall b: nat ensures Accounted(g, st', b) {
      assert Accounted(g, st, b);
    }
  }

  lemma DroppedNext(p: Inode, i: nat)
    requires |p.addrs| == NDIRECT + 1 && i <= NDIRECT
    ensures Dropped(p, i).addrs[i := 0] == Dropped(p, i + 1).addrs
    ensures p.addrs[i] == 0 ==> Dropped(p, i + 1) == Dropped(p, i)
  {}

  lemma DroppedAll(p: Inode)
    requires |p.addrs| == NDIRECT + 1
    ensures Dropped(p, NDIRECT + 1).addrs == NoAddrs()
  {}

  lemma DroppedNone(p: Inode)
    requires |p.addrs| == NDIRECT + 1
    ensures Dropped(p, 0) == p
  {}

  class Inodes {
    const disk: Disk
    var inodes: map<nat, Inode>
    ghost var owner: map<nat, Slot>
    ghost var dead: set<Slot>

    constructor (disk: Disk, inodes: map<nat, Inode>, ghost owner: map<nat, Slot>)
      ensures this.disk == disk && this.inodes == inodes && this.owner == owner && this.dead == {}
    {
      this.disk, this.inodes, this.owner, this.dead := disk, inodes, owner, {};
    }

    ghost function St(): State
      reads this, disk
    {
      State(disk.data, inodes, owner, dead)
    }

    ghost predicate Valid()
      reads this, disk
    {
      dead == {} && Inv(disk.g, St())
    }

    /** The indirect block of an inode, 0 for none. */
    function Listing(n: nat): nat
      requires n in inodes && |inodes[n].addrs| == NDIRECT + 1
      reads this
    {
      inodes[n].addrs[NDIRECT]
    }

    /** The two places of bmap that fill a slot of the inode's own list. */
    method FillTop(n: nat, i: nat, ghost s: Slot) returns (addr: nat)
      requires Valid() && n in inodes && i <= NDIRECT && inodes[n].addrs[i] == 0
      requires if i < NDIRECT then s == Direct(n, i) else s.Entry? && s.inum == n && IsSlot(St(), s)
      modifies this, disk
      ensures Valid() && old(IsSlot(St(), s)) && MapKept(old(St()), St(), s) && n in inodes
      ensures inodes[n].addrs[i] == addr && (i < NDIRECT ==> inodes[n].addrs[NDIRECT] == old(inodes[n].addrs[NDIRECT]))
      ensures Logs(disk.g, old(disk.logged), disk.logged, {addr} - {0})
      ensures i < NDIRECT ==> Mapped(disk.g, old(St()), St(), s, addr)
      ensures i == NDIRECT ==> Addr0(St(), s)
      ensures old(owner).Keys <= owner.Keys
      ensures addr == 0 ==> St() == old(St())
      ensures addr == 0 ==>
                forall b: nat {:trigger Used(disk.g, disk.data, b)} :: b < disk.g.size ==> Used(disk.g, disk.data, b)
    {
      ghost var st, g := St(), disk.g;
      assert Accounted(g, st, 0) && Owned(g, st, 0);
      addr := disk.Balloc();
      if addr == 0 {
        return;
      }
      TopSlotFilled(g, st, n, i, addr);
      TopSlotKeeps(g, st, n, i, addr, s);
      UnownedIsFree(g, st, addr);
      inodes := inodes[n := Inode(inodes[n].addrs[i := addr], inodes[n].size)];
      owner := owner[addr := TopSlot(n, i)];
    }

    /** The place of bmap that fills a word of the indirect block. */
    method FillEntry(n: nat, j: nat) returns (addr: nat)
      requires Valid() && n in inodes && j < NINDIRECT && inodes[n].addrs[NDIRECT] != 0 && Addr0(St(), Entry(n, j))
      modifies this, disk
      ensures Valid() && Mapped(disk.g, old(St()), St(), Entry(n, j), addr) && inodes == old(inodes)
      ensures Logs(disk.g, old(disk.logged), disk.logged, {addr, Listing(n)} - {0})
    {
      ghost var st, g := St(), disk.g;
      assert Accounted(g, st, 0) && Owned(g, st, 0);
      IndirectBlock(g, st, n);
      addr := disk.Balloc();
      if addr == 0 {
        return;
      }
      EntryFilled(g, st, n, j, addr);
      EntryKeeps(g, st, n, j, addr);
      UnownedIsFree(g, st, addr);
      var ia := inodes[n].addrs[NDIRECT];
      disk.data := disk.data[ia := PutWord(disk.data[ia], j, addr)];
      disk.logged := disk.logged + {ia};
      owner := owner[addr := Entry(n, j)];
    }

    /** bmap for a block listed in the indirect block. */
    method BmapIndirect(n: nat, j: nat) returns (addr: nat)
      requires Valid() && n in inodes && j < NINDIRECT
      modifies this, disk
      ensures Valid() && Mapped(disk.g, old(St()), St(), Entry(n, j), addr)
      ensures Addr(old(St()), Entry(n, j)) != 0 ==> disk.logged == old(disk.logged)
      ensures n in inodes && (old(Listing(n)) != 0 ==> Listing(n) == old(Listing(n)))
      ensures Logs(disk.g, old(disk.logged), disk.logged, {addr, Listing(n)} - {0})
    {
      ghost var st := St();
      addr := inodes[n].addrs[NDIRECT];
      if addr == 0 {
        addr := FillTop(n, NDIRECT, Entry(n, j));
        if addr == 0 {
          return;
        }
      }
      ghost var st1 := St();
      IndirectBlock(disk.g, st1, n);
      addr := Word(disk.data[addr], j);
      if addr == 0 {
        addr := FillEntry(n, j);
        if st != st1 {
          MapKeptTwice(st, st1, St(), Entry(n, j));
        }
      }
    }

    /**
      bmap: the disk block of the inode's block bn, allocated if need be; 0 if the disk is full. Beyond MAXFILE
      it panics.
     */
    method Bmap(n: nat, bn: nat) returns (addr: nat)
      requires Valid() && n in inodes && bn < MAXFILE
      modifies this, disk
      ensures Valid() && Mapped(disk.g, old(St()), St(), SlotOf(n, bn), addr)
      ensures Addr(old(St()), SlotOf(n, bn)) != 0 ==> disk.logged == old(disk.logged)
      ensures n in inodes && (old(Listing(n)) != 0 ==> Listing(n) == old(Listing(n)))
      ensures Logs(disk.g, old(disk.logged), disk.logged, {addr, Listing(n)} - {0})
    {
      if bn < NDIRECT {
        addr := inodes[n].addrs[bn];
        if addr == 0 {
          addr := FillTop(n, bn, Direct(n, bn));
        }
      } else {
        addr := BmapIndirect(n, bn - NDIRECT);
      }
    }

    /** One slot of the inode's own list: its block goes back to the free map. */
    method FreeTop(n: nat, i: nat, ghost st0: State)
      requires Inv(disk.g, St()) && n in inodes && i <= NDIRECT && inodes[n].addrs[i] != 0
      requires Released(disk.g, st0, St(), n)
      requires i == NDIRECT ==> forall j: nat :: j < NINDIRECT ==> Addr0(St(), Entry(n, j))
      modifies this, disk
      ensures Inv(disk.g, St()) && Released(disk.g, st0, St(), n) && dead == old(dead)
      ensures inodes == old(inodes)[n := Inode(old(inodes)[n].addrs[i := 0], old(inodes)[n].size)]
      ensures Logs(disk.g, old(disk.logged), disk.logged, {})
    {
      ghost var st, g := St(), disk.g;
      var a := inodes[n].addrs[i];
      TopSlotFreed(g, st, n, i);
      OwnedIsUsed(g, st, TopSlot(n, i));
      disk.Bfree(a);
      inodes := inodes[n := Inode(inodes[n].addrs[i := 0], inodes[n].size)];
      owner := owner - {a};
      StillReleased(g, st0, st, St(), n, a);
    }

    /** One word of the indirect block. */
    method FreeEntry(n: nat, j: nat, ghost st0: State)
      requires Inv(disk.g, St()) && n in inodes && j < NINDIRECT && IsSlot(St(), Entry(n, j))
      requires Addr(St(), Entry(n, j)) != 0
      requires Released(disk.g, st0, St(), n)
      modifies this, disk
      ensures Inv(disk.g, St()) && Released(disk.g, st0, St(), n) && dead == old(dead) + {Entry(n, j)}
      ensures inodes == old(inodes)
      ensures Released(disk.g, old(St()), St(), n)
      ensures Logs(disk.g, old(disk.logged), disk.logged, {})
    {
      ghost var st, g := St(), disk.g;
      IndirectBlock(g, st, n);
      var a := Word(disk.data[inodes[n].addrs[NDIRECT]], j);
      EntryFreed(g, st, n, j);
      OwnedIsUsed(g, st, Entry(n, j));
      disk.Bfree(a);
      owner, dead := owner - {a}, dead + {Entry(n, j)};
      StillReleased(g, st0, st, St(), n, a);
      NothingReleased(g, st, n);
      StillReleased(g, st, st, St(), n, a);
    }

    /** The first loop of itrunc. */
    method FreeDirect(n: nat)
      requires Valid() && n in inodes
      modifies this, disk
      ensures Valid() && Released(disk.g, old(St()), St(), n)
      ensures inodes == old(inodes)[n := Dropped(old(inodes)[n], NDIRECT)]
      ensures Logs(disk.g, old(disk.logged), disk.logged, {})
    {
      ghost var st0, p := St(), inodes[n];
      DroppedNone(p);
      NothingReleased(disk.g, st0, n);
      var i := 0;
      while i < NDIRECT
        invariant 0 <= i <= NDIRECT && Valid() && Released(disk.g, st0, St(), n)
        invariant inodes == st0.inodes[n := Dropped(p, i)]
        invariant Logs(disk.g, old(disk.logged), disk.logged, {})
      {
        DroppedNext(p, i);
        if inodes[n].addrs[i] != 0 {
          FreeTop(n, i, st0);
        }
        i := i + 1;
      }
    }

    /** The second part of itrunc: what the indirect block lists, then the indirect block itself. */
    method FreeIndirect(n: nat, ghost st0: State)
      requires Valid() && n in inodes && inodes[n].addrs[NDIRECT] != 0 && Released(disk.g, st0, St(), n)
      modifies this, disk
      ensures Valid() && Released(disk.g, st0, St(), n)
      ensures inodes == old(inodes)[n := Inode(old(inodes)[n].addrs[NDIRECT := 0], old(inodes)[n].size)]
      ensures Logs(disk.g, old(disk.logged), disk.logged, {})
    {
      var j := 0;
      while j < NINDIRECT
        invariant 0 <= j <= NINDIRECT && Inv(disk.g, St()) && Released(disk.g, st0, St(), n) && inodes == old(inodes)
        invariant DeadOf(St(), n) && Logs(disk.g, old(disk.logged), disk.logged, {})
        invariant forall j': nat :: j <= j' < NINDIRECT ==> Entry(n, j') !in dead
        invariant forall j': nat {:trigger Addr0(St(), Entry(n, j'))} :: j' < j ==> Addr0(St(), Entry(n, j'))
      {
        IndirectBlock(disk.g, St(), n);
        ghost var st := St();
        if Word(disk.data[inodes[n].addrs[NDIRECT]], j) != 0 {
          FreeEntry(n, j, st0);
          StillEmpty(disk.g, st, St(), n, j);
        }
        j := j + 1;
      }
      FreeTop(n, NDIRECT, st0);
      Exhume(disk.g, St(), n);
      dead := {};
    }

    /**
      itrunc: the inode is empty; exactly its blocks have become free, and no other file's blocks or data have
      changed. However many blocks it frees, it logs blocks of the free map only.
     */
    method Itrunc(n: nat)
      requires Valid() && n in inodes
      modifies this, disk
      ensures Valid() && Truncated(disk.g, old(St()), St(), n)
      ensures Logs(disk.g, old(disk.logged), disk.logged, {})
    {
      ghost var st0, p := St(), inodes[n];
      FreeDirect(n);
      DroppedNext(p, NDIRECT);
      DroppedAll(p);
      if inodes[n].addrs[NDIRECT] != 0 {
        FreeIndirect(n, st0);
      }
      Emptied(n, st0);
    }

    /** The last lines of itrunc. */
    method Emptied(n: nat, ghost st0: State)
      requires Valid() && n in st0.inodes && n in inodes && inodes == st0.inodes[n := Inode(NoAddrs(), inodes[n].size)]
      requires Released(disk.g, st0, St(), n)
      modifies this
      ensures Valid() && Truncated(disk.g, st0, St(), n)
    {
      NoBlocksLeft(disk.g, St(), n);
      ghost var st := St();
      inodes := inodes[n := Inode(inodes[n].addrs, 0)];
      SizeOnly(disk.g, st, St(), n);
    }
  }
}
