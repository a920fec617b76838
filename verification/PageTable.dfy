/**
  Sv39 page tables in physical memory and the flat map they denote (section 4.4 of the RISC-V
  Privileged Architecture, version 20211203, with the supervisor's limit MAXVA of 2^38).

  A physical page holds either 512 page-table entries or 4096 bytes. A tree is described by a
  ghost labelling `pos` that gives each of its table pages its place; two pages with the same
  place, or one page with two places, cannot be labelled, so a labelled tree has no sharing.
 */
module PageTable {

  const PGSIZE := 4096
  const MAXVA := 0x40_0000_0000
  const MAXVPN := 0x400_0000
  const ENTRIES := 512

  datatype Frame = Table(ptes: seq<nat>) | Bytes(bytes: seq<nat>)
  type Memory = map<nat, Frame>

  // ----- entries and indices -----

  predicate IsValid(p: nat) { p % 2 == 1 }
  predicate Readable(p: nat) { p / 2 % 2 == 1 }
  predicate Writable(p: nat) { p / 4 % 2 == 1 }
  predicate Executable(p: nat) { p / 8 % 2 == 1 }
  predicate User(p: nat) { p / 16 % 2 == 1 }

  function Pte2Pa(p: nat): nat { p / 1024 * 4096 }
  function Pa2Pte(pa: nat): nat { pa / 4096 * 1024 }
  function Flags(p: nat): nat { p % 1024 }

  /** PA2PTE(pa) | perm | PTE_V */
  function LeafPte(pa: nat, perm: nat): nat
    requires perm < 1024
  {
    Pa2Pte(pa) + perm + (1 - perm % 2)
  }

  lemma LeafPteFields(pa: nat, perm: nat)
    requires pa % PGSIZE == 0 && perm < 1024
    ensures Pte2Pa(LeafPte(pa, perm)) == pa && IsValid(LeafPte(pa, perm))
    ensures Flags(LeafPte(pa, perm)) == perm + (1 - perm % 2)
  {
    PteFields(pa, perm + (1 - perm % 2));
  }

  lemma PteFields(pa: nat, flags: nat)
    requires pa % PGSIZE == 0 && flags < 1024
    ensures var e := Pa2Pte(pa) + flags;
            Pte2Pa(e) == pa && Flags(e) == flags && (IsValid(e) <==> flags % 2 == 1)
  {
    var q := pa / 4096;
    assert pa == 4096 * q;
    assert (q * 1024 + flags) / 1024 == q;
  }

  /** PX(level, va) */
  function Px(level: nat, va: nat): nat
    requires level <= 2
  {
    va / (if level == 2 then 0x4000_0000 else if level == 1 then 0x20_0000 else 4096) % 512
  }

  /** The same index from the page number. */
  function Index(level: nat, v: nat): nat
    requires level <= 2
  {
    v / (if level == 2 then 0x4_0000 else if level == 1 then 512 else 1) % 512
  }

  lemma PxIsIndex(level: nat, va: nat)
    requires level <= 2
    ensures Px(level, va) == Index(level, va / PGSIZE)
  {
    assert va / 0x20_0000 == va / 4096 / 512;
    assert va / 0x4000_0000 == va / 4096 / 0x4_0000;
  }

  /** The three indices together are the page number, so distinct pages have distinct paths. */
  lemma IndicesSpellPage(v: nat)
    requires v < MAXVPN
    ensures v == Index(2, v) * 0x4_0000 + Index(1, v) * 512 + Index(0, v)
    ensures Index(2, v) < 256
  {
    assert v / 0x4_0000 == v / 512 / 512;
    assert v == v / 512 * 512 + v % 512;
    assert v / 512 == v / 512 / 512 * 512 + v / 512 % 512;
  }

  // ----- trees -----

  datatype Pos = Root | Mid(i2: nat) | Low(i2: nat, i1: nat)

  /** The place of the table that walk has reached when it is about to index at `level`. */
  function PlaceAt(level: nat, v: nat): Pos
    requires level <= 2
  {
    if level == 2 then Root else if level == 1 then Mid(Index(2, v)) else Low(Index(2, v), Index(1, v))
  }

  function ChildPlace(p: Pos, i: nat): Pos
    requires !p.Low?
  {
    if p.Root? then Mid(i) else Low(p.i2, i)
  }

  function Entry(m: Memory, t: nat, i: nat): nat {
    if t in m && m[t].Table? && i < |m[t].ptes| then m[t].ptes[i] else 0
  }

  /** The entry at i of a table at place p: zero, or a pointer to the right child, or a leaf at the lowest level. */
  predicate EntryOk(e: nat, p: Pos, i: nat, pos: map<nat, Pos>) {
    e == 0 ||
      if p.Low? then IsValid(e) && Flags(e) != 1
      else IsValid(e) && Flags(e) == 1 && Pte2Pa(e) in pos && pos[Pte2Pa(e)] == ChildPlace(p, i)
  }

  predicate NodeOk(m: Memory, pos: map<nat, Pos>, t: nat) {
    && t in pos && t in m && m[t].Table? && |m[t].ptes| == ENTRIES && t % PGSIZE == 0
    && forall i {:trigger EntryOk(m[t].ptes[i], pos[t], i, pos)} :: 0 <= i < ENTRIES ==>
           EntryOk(m[t].ptes[i], pos[t], i, pos)
  }

  /** The table is where its parent says it is; so its place determines it. */
  predicate Linked(m: Memory, root: nat, pos: map<nat, Pos>, t: nat)
    requires t in pos
  {
    match pos[t]
    case Root => t == root
    case Mid(i2) =>
      i2 < 256 && IsValid(Entry(m, root, i2)) && Pte2Pa(Entry(m, root, i2)) == t
    case Low(i2, i1) =>
      && i2 < 256 && i1 < ENTRIES && IsValid(Entry(m, root, i2))
      && var mid := Pte2Pa(Entry(m, root, i2));
      && IsValid(Entry(m, mid, i1)) && Pte2Pa(Entry(m, mid, i1)) == t
  }

  predicate IsTree(m: Memory, root: nat, pos: map<nat, Pos>) {
    && root in pos && pos[root] == Root
    && (forall t {:trigger NodeOk(m, pos, t)} :: t in pos ==> NodeOk(m, pos, t))
    && (forall t {:trigger Linked(m, root, pos, t)} :: t in pos ==> Linked(m, root, pos, t))
  }

  /** The leaf entry that the hardware walk finds for the page v, 0 when it meets an invalid entry. */
  function Lookup(m: Memory, root: nat, v: nat): nat {
    var e2 := Entry(m, root, Index(2, v));
    if !IsValid(e2) then 0 else
      var e1 := Entry(m, Pte2Pa(e2), Index(1, v));
      if !IsValid(e1) then 0 else Entry(m, Pte2Pa(e1), Index(0, v))
  }

  predicate SameMap(m: Memory, m': Memory, root: nat) {
    forall v :: 0 <= v < MAXVPN ==> Lookup(m', root, v) == Lookup(m, root, v)
  }

  /** In a tree, the leaf entry of page v is entry Index(0, v) of the table at its place, if there is one. */
  lemma LookupAt(m: Memory, root: nat, pos: map<nat, Pos>, t: nat, v: nat)
    requires IsTree(m, root, pos) && t in pos && v < MAXVPN && pos[t] == PlaceAt(0, v)
    ensures Lookup(m, root, v) == Entry(m, t, Index(0, v))
  {
    assert Linked(m, root, pos, t);
  }

  lemma ChildExists(m: Memory, root: nat, pos: map<nat, Pos>, t: nat, i: nat)
    requires IsTree(m, root, pos) && t in pos && !pos[t].Low? && i < ENTRIES && IsValid(Entry(m, t, i))
    ensures Pte2Pa(Entry(m, t, i)) in pos && pos[Pte2Pa(Entry(m, t, i))] == ChildPlace(pos[t], i)
  {
    assert NodeOk(m, pos, t);
    assert EntryOk(m[t].ptes[i], pos[t], i, pos);
  }

  lemma NoTableNoLeaf(m: Memory, root: nat, pos: map<nat, Pos>, t: nat, level: nat, v: nat)
    requires IsTree(m, root, pos) && t in pos && v < MAXVPN && 0 < level <= 2 && pos[t] == PlaceAt(level, v)
    requires !IsValid(Entry(m, t, Index(level, v)))
    ensures Lookup(m, root, v) == 0
    ensures forall u :: u in pos ==> pos[u] != PlaceAt(0, v)
  {
    assert Linked(m, root, pos, t);
    forall u | u in pos ensures pos[u] != PlaceAt(0, v) {
      assert Linked(m, root, pos, u);
    }
  }

  // ----- the two ways a tree changes -----

  function ZeroTable(): Frame { Table(seq(ENTRIES, _ => 0)) }

  function SetEntry(m: Memory, t: nat, i: nat, e: nat): Memory
    requires t in m && m[t].Table? && i < |m[t].ptes|
  {
    m[t := Table(m[t].ptes[i := e])]
  }

  /** walk's new table page p hung below entry i of t. */
  function Hang(m: Memory, t: nat, i: nat, p: nat): Memory
    requires t in m && m[t].Table? && i < |m[t].ptes| && p != t
  {
    SetEntry(m[p := ZeroTable()], t, i, Pa2Pte(p) + 1)
  }

  lemma HangTree(m: Memory, root: nat, pos: map<nat, Pos>, t: nat, i: nat, p: nat)
    requires IsTree(m, root, pos) && t in pos && !pos[t].Low? && i < ENTRIES
    requires !IsValid(Entry(m, t, i)) && p !in pos && p % PGSIZE == 0 && (pos[t].Root? ==> i < 256)
    ensures t in m && m[t].Table? && |m[t].ptes| == ENTRIES
    ensures IsTree(Hang(m, t, i, p), root, pos[p := ChildPlace(pos[t], i)])
  {
    assert NodeOk(m, pos, t);
    var m', pos' := Hang(m, t, i, p), pos[p := ChildPlace(pos[t], i)];
    forall u | u in pos' ensures NodeOk(m', pos', u) {
      HangNode(m, pos, t, i, p, u);
    }
    forall u | u in pos' ensures Linked(m', root, pos', u) {
      HangLinked(m, root, pos, t, i, p, u);
    }
  }

  lemma HangNode(m: Memory, pos: map<nat, Pos>, t: nat, i: nat, p: nat, u: nat)
    requires NodeOk(m, pos, t) && !pos[t].Low? && i < ENTRIES && p !in pos && p % PGSIZE == 0
    requires u == p || NodeOk(m, pos, u)
    ensures NodeOk(Hang(m, t, i, p), pos[p := ChildPlace(pos[t], i)], u)
  {
    var m', pos' := Hang(m, t, i, p), pos[p := ChildPlace(pos[t], i)];
    PteFields(p, 1);
    if u != p {
      forall j | 0 <= j < ENTRIES ensures EntryOk(m'[u].ptes[j], pos'[u], j, pos') {
        assert EntryOk(m[u].ptes[j], pos[u], j, pos);
      }
    }
  }

  lemma HangLinked(m: Memory, root: nat, pos: map<nat, Pos>, t: nat, i: nat, p: nat, u: nat)
    requires IsTree(m, root, pos) && t in pos && !pos[t].Low? && i < ENTRIES
    requires !IsValid(Entry(m, t, i)) && p !in pos && p % PGSIZE == 0 && (pos[t].Root? ==> i < 256)
    requires (u in pos || u == p)
    ensures t in m && m[t].Table? && |m[t].ptes| == ENTRIES
    ensures Linked(Hang(m, t, i, p), root, pos[p := ChildPlace(pos[t], i)], u)
  {
    assert NodeOk(m, pos, t) && NodeOk(m, pos, root);
    assert Linked(m, root, pos, t);
    PteFields(p, 1);
    if u in pos {
      assert Linked(m, root, pos, u);
      if pos[u].Low? {
        ChildExists(m, root, pos, root, pos[u].i2);
      }
    } else if pos[t].Mid? {
      ChildExists(m, root, pos, root, pos[t].i2);
    }
  }

  lemma HangMap(m: Memory, root: nat, pos: map<nat, Pos>, t: nat, i: nat, p: nat)
    requires IsTree(m, root, pos) && t in pos && !pos[t].Low? && i < ENTRIES
    requires !IsValid(Entry(m, t, i)) && p !in pos && p % PGSIZE == 0 && (pos[t].Root? ==> i < 256)
    ensures t in m && m[t].Table? && |m[t].ptes| == ENTRIES && SameMap(m, Hang(m, t, i, p), root)
  {
    assert NodeOk(m, pos, t) && NodeOk(m, pos, root);
    PteFields(p, 1);
    forall v | 0 <= v < MAXVPN ensures Lookup(Hang(m, t, i, p), root, v) == Lookup(m, root, v) {
      HangLookup(m, root, pos, t, i, p, v);
    }
  }

  lemma HangLookup(m: Memory, root: nat, pos: map<nat, Pos>, t: nat, i: nat, p: nat, v: nat)
    requires IsTree(m, root, pos) && t in pos && !pos[t].Low? && i < ENTRIES && v < MAXVPN
    requires !IsValid(Entry(m, t, i)) && p !in pos && p % PGSIZE == 0 && (pos[t].Root? ==> i < 256)
    ensures t in m && m[t].Table? && |m[t].ptes| == ENTRIES
    ensures Lookup(Hang(m, t, i, p), root, v) == Lookup(m, root, v)
  {
    assert NodeOk(m, pos, t) && NodeOk(m, pos, root);
    PteFields(p, 1);
    var e2 := Entry(m, root, Index(2, v));
    if IsValid(e2) {
      ChildExists(m, root, pos, root, Index(2, v));
      var mid := Pte2Pa(e2);
      assert NodeOk(m, pos, mid);
      if IsValid(Entry(m, mid, Index(1, v))) {
        ChildExists(m, root, pos, mid, Index(1, v));
      }
    }
  }

  /** Writing one entry of a lowest-level table changes the map at exactly one page. */
  lemma SetLeafTree(m: Memory, root: nat, pos: map<nat, Pos>, t: nat, i: nat, e: nat)
    requires IsTree(m, root, pos) && t in pos && pos[t].Low? && i < ENTRIES && (e == 0 || (IsValid(e) && Flags(e) != 1))
    ensures t in m && m[t].Table? && |m[t].ptes| == ENTRIES && IsTree(SetEntry(m, t, i, e), root, pos)
  {
    assert NodeOk(m, pos, t);
    var m' := SetEntry(m, t, i, e);
    forall u | u in pos ensures NodeOk(m', pos, u) {
      assert NodeOk(m, pos, u);
    }
    forall u | u in pos ensures Linked(m', root, pos, u) {
      assert Linked(m, root, pos, u);
      if pos[u].Low? {
        ChildExists(m, root, pos, root, pos[u].i2);
      }
    }
  }

  lemma SetLeafLookup(m: Memory, root: nat, pos: map<nat, Pos>, t: nat, v: nat, e: nat, w: nat)
    requires IsTree(m, root, pos) && t in pos && v < MAXVPN && w < MAXVPN && pos[t] == PlaceAt(0, v)
    ensures t in m && m[t].Table? && |m[t].ptes| == ENTRIES
    ensures Lookup(SetEntry(m, t, Index(0, v), e), root, w) == if w == v then e else Lookup(m, root, w)
  {
    assert NodeOk(m, pos, t);
    IndicesSpellPage(v);
    IndicesSpellPage(w);
    var e2 := Entry(m, root, Index(2, w));
    assert Linked(m, root, pos, t);
    if IsValid(e2) {
      ChildExists(m, root, pos, root, Index(2, w));
      var mid := Pte2Pa(e2);
      if IsValid(Entry(m, mid, Index(1, w))) {
        ChildExists(m, root, pos, mid, Index(1, w));
      }
    }
  }

  lemma IndexOfParts(i2: nat, i1: nat, i0: nat)
    requires i2 < 256 && i1 < ENTRIES && i0 < ENTRIES
    ensures var v := i2 * 0x4_0000 + i1 * 512 + i0;
            v < MAXVPN && Index(2, v) == i2 && Index(1, v) == i1 && Index(0, v) == i0
  {
    var v := i2 * 0x4_0000 + i1 * 512 + i0;
    assert v / 0x4_0000 == i2;
    assert v / 512 == i2 * 512 + i1;
  }

  /** When the map is empty, no lowest-level table holds anything. */
  lemma EmptyMapNoLeaf(m: Memory, root: nat, pos: map<nat, Pos>, u: nat, i: nat)
    requires IsTree(m, root, pos) && u in pos && pos[u].Low? && i < ENTRIES
    requires forall v :: 0 <= v < MAXVPN ==> Lookup(m, root, v) == 0
    ensures Entry(m, u, i) == 0
  {
    assert Linked(m, root, pos, u);
    IndexOfParts(pos[u].i2, pos[u].i1, i);
    LookupAt(m, root, pos, u, pos[u].i2 * 0x4_0000 + pos[u].i1 * 512 + i);
  }

  // ----- subtrees -----

  /** q is p or a place below p. */
  predicate Under(p: Pos, q: Pos) {
    p.Root? || p == q || (p.Mid? && q.Low? && p.i2 == q.i2)
  }

  /** The entry of the table at p through which a place strictly below it is reached. */
  function Branch(p: Pos, q: Pos): nat
    requires !p.Low? && Under(p, q) && p != q
  {
    if p.Root? then q.i2 else q.i1
  }

  function Sub(pos: map<nat, Pos>, p: Pos): set<nat> {
    set u | u in pos && Under(p, pos[u])
  }

  function SubUpTo(pos: map<nat, Pos>, p: Pos, i: nat): set<nat> {
    set u | u in pos && !p.Low? && Under(p, pos[u]) && p != pos[u] && Branch(p, pos[u]) < i
  }

  lemma SubNext(pos: map<nat, Pos>, p: Pos, i: nat)
    requires !p.Low?
    ensures SubUpTo(pos, p, i + 1) == SubUpTo(pos, p, i) + Sub(pos, ChildPlace(p, i))
    ensures SubUpTo(pos, p, i) !! Sub(pos, ChildPlace(p, i))
  {
  }

  lemma SubEmpty(m: Memory, root: nat, pos: map<nat, Pos>, t: nat, i: nat)
    requires IsTree(m, root, pos) && t in pos && !pos[t].Low? && i < ENTRIES && !IsValid(Entry(m, t, i))
    ensures Sub(pos, ChildPlace(pos[t], i)) == {}
  {
    forall u | u in pos ensures !Under(ChildPlace(pos[t], i), pos[u]) {
      assert Linked(m, root, pos, u);
      assert Linked(m, root, pos, t);
    }
  }

  /** A subtree is its top table and the branches below it. */
  lemma SubWhole(m: Memory, root: nat, pos: map<nat, Pos>, t: nat)
    requires IsTree(m, root, pos) && t in pos
    ensures Sub(pos, pos[t]) == SubUpTo(pos, pos[t], ENTRIES) + {t}
    ensures t !in SubUpTo(pos, pos[t], ENTRIES)
  {
    assert Linked(m, root, pos, t);
    forall u | u in pos && Under(pos[t], pos[u]) ensures u == t || u in SubUpTo(pos, pos[t], ENTRIES) {
      assert Linked(m, root, pos, u);
    }
  }

  /** A pointer entry has none of R, W and X, so freewalk takes its first branch. */
  lemma PointerFlags(e: nat)
    requires Flags(e) == 1
    ensures IsValid(e) && !Readable(e) && !Writable(e) && !Executable(e)
  {
    var q := e / 1024;
    assert e == q * 1024 + 1;
    assert e / 2 == q * 512;
    assert e / 4 == q * 256;
    assert e / 8 == q * 128;
  }
}
