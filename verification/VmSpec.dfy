/** Facts about page tables, free pages and user pages that the methods of Vm are stated with. */
module VmSpec {
  import opened PageTable
  import opened TableCount

  datatype Slot = None | Slot(table: nat, index: nat)

  /** m' agrees with m on every page outside `except`. */
  predicate Untouched(m: Memory, m': Memory, except: set<nat>) {
    m'.Keys == m.Keys && forall q :: q in m && q !in except ==> m'[q] == m[q]
  }

  /** A tree whose pages are untouched is still a tree and denotes the same map. */
  lemma TreeFrame(m: Memory, m': Memory, root: nat, pos: map<nat, Pos>)
    requires IsTree(m, root, pos) && forall t :: t in pos ==> t in m' && t in m && m'[t] == m[t]
    ensures IsTree(m', root, pos) && SameMap(m, m', root)
  {
    forall t | t in pos ensures NodeOk(m', pos, t) && Linked(m', root, pos, t) {
      assert NodeOk(m, pos, t) && Linked(m, root, pos, t);
      if pos[t].Low? {
        ChildExists(m, root, pos, root, pos[t].i2);
      }
    }
    forall v | 0 <= v < MAXVPN ensures Lookup(m', root, v) == Lookup(m, root, v) {
      var e2 := Entry(m, root, Index(2, v));
      if IsValid(e2) {
        ChildExists(m, root, pos, root, Index(2, v));
        if IsValid(Entry(m, Pte2Pa(e2), Index(1, v))) {
          ChildExists(m, root, pos, Pte2Pa(e2), Index(1, v));
        }
      }
    }
  }

  /**
    Pages move only from the free set into the tree, and nothing outside the two is written.
    The tree keeps every page it had.
   */
  ghost predicate Grown(m: Memory, f: set<nat>, pos: map<nat, Pos>, m': Memory, f': set<nat>, pos': map<nat, Pos>) {
    Untouched(m, m', pos.Keys + f) && f' + pos'.Keys == f + pos.Keys && pos.Keys <= pos'.Keys && f' <= f
  }

  lemma GrownTrans(m: Memory, f: set<nat>, pos: map<nat, Pos>, m1: Memory, f1: set<nat>, pos1: map<nat, Pos>,
                   m2: Memory, f2: set<nat>, pos2: map<nat, Pos>)
    requires Grown(m, f, pos, m1, f1, pos1) && Grown(m1, f1, pos1, m2, f2, pos2)
    ensures Grown(m, f, pos, m2, f2, pos2)
  {
  }

  /** m' maps the n pages from v to consecutive pages from pa, and everything else as m does. */
  ghost predicate MapsRange(m: Memory, m': Memory, root: nat, v: nat, n: nat, pa: nat, perm: nat)
    requires perm < 1024
  {
    forall w :: 0 <= w < MAXVPN ==>
      Lookup(m', root, w) == if v <= w < v + n then LeafPte(pa + (w - v) * PGSIZE, perm) else Lookup(m, root, w)
  }

  /** m' maps page v to e and everything else as m does. */
  ghost predicate SetsPage(m: Memory, m': Memory, root: nat, v: nat, e: nat) {
    forall w :: 0 <= w < MAXVPN ==> Lookup(m', root, w) == if w == v then e else Lookup(m, root, w)
  }

  /** m' maps none of the n pages from v, and everything else as m does. */
  ghost predicate UnmapsRange(m: Memory, m': Memory, root: nat, v: nat, n: nat) {
    forall w :: 0 <= w < MAXVPN ==> Lookup(m', root, w) == if v <= w < v + n then 0 else Lookup(m, root, w)
  }

  ghost predicate Vacant(m: Memory, root: nat, v: nat, n: nat) {
    forall w :: v <= w < v + n ==> Lookup(m, root, w) == 0
  }

  predicate SlotOf(slot: Slot, pos: map<nat, Pos>, v: nat) {
    slot.Slot? && slot.table in pos && pos[slot.table] == PlaceAt(0, v) && slot.index == Index(0, v)
  }

  lemma PageNumber(va: nat, v: nat)
    requires va == v * PGSIZE
    ensures va / PGSIZE == v && va % PGSIZE == 0
  {
  }

  lemma NextToMap(m0: Memory, m: Memory, root: nat, v: nat, n: nat, k: nat, pa: nat, perm: nat, b: nat)
    requires Vacant(m0, root, v, n) && k < n && v + n <= MAXVPN && perm < 1024
    requires MapsRange(m0, m, root, v, k, pa, perm) && pa % PGSIZE == 0 && b == pa + k * PGSIZE
    ensures Lookup(m, root, v + k) == 0 && b % PGSIZE == 0
  {
    assert Lookup(m, root, v + k) == Lookup(m0, root, v + k);
  }

  lemma ExtendRange(m0: Memory, m: Memory, m': Memory, root: nat, v: nat, k: nat, pa: nat, perm: nat, b: nat)
    requires perm < 1024 && MapsRange(m0, m, root, v, k, pa, perm) && b == pa + k * PGSIZE
    requires SetsPage(m, m', root, v + k, LeafPte(b, perm))
    ensures MapsRange(m0, m', root, v, k + 1, pa, perm)
  {
  }

  // ----- user pages -----

  /** A mapped page: its physical page, its flags and its contents. */
  datatype UPage = UPage(pa: nat, flags: nat, bytes: seq<nat>)

  function PaSet(us: seq<UPage>): set<nat> {
    set u | u in us :: u.pa
  }

  ghost predicate DistinctPas(us: seq<UPage>) {
    forall i, j :: 0 <= i < j < |us| ==> us[i].pa != us[j].pa
  }

  predicate Holds(m: Memory, root: nat, w: nat, u: UPage) {
    var e := Lookup(m, root, w);
    IsValid(e) && Flags(e) == u.flags && Pte2Pa(e) == u.pa && u.pa in m && m[u.pa] == Bytes(u.bytes)
  }

  /** Pages v, v+1, ... are mapped to exactly the pages us, which are distinct. */
  ghost predicate HoldsAll(m: Memory, root: nat, v: nat, us: seq<UPage>) {
    DistinctPas(us) && forall i :: 0 <= i < |us| ==> Holds(m, root, v + i, us[i])
  }

  lemma HoldsAt(m: Memory, root: nat, v: nat, us: seq<UPage>, k: nat, w: nat)
    requires HoldsAll(m, root, v, us) && k < |us| && w == v + k
    ensures IsValid(Lookup(m, root, w)) && Pte2Pa(Lookup(m, root, w)) == us[k].pa && us[k].pa in m
    ensures Flags(Lookup(m, root, w)) == us[k].flags && m[us[k].pa] == Bytes(us[k].bytes)
  {
    assert Holds(m, root, v + k, us[k]);
  }

  lemma PaSetNext(us: seq<UPage>, u: UPage)
    ensures PaSet(us + [u]) == PaSet(us) + {u.pa}
  {
    assert forall x :: x in us + [u] <==> x in us || x == u;
    forall p | p in PaSet(us) + {u.pa} ensures p in PaSet(us + [u]) {
      if p in PaSet(us) {
        var x :| x in us && x.pa == p;
        assert x in us + [u];
      } else {
        assert u in us + [u];
      }
    }
  }

  lemma {:induction false} PaSetSize(us: seq<UPage>)
    ensures |PaSet(us)| <= |us| && (DistinctPas(us) ==> |PaSet(us)| == |us|)
  {
    if us != [] {
      var n := |us| - 1;
      PaSetSize(us[..n]);
      PaSetNext(us[..n], us[n]);
      assert us[..n] + [us[n]] == us;
      if DistinctPas(us) {
        PaNotYet(us, n);
      }
    }
  }

  lemma {:induction false} SubsetSize(a: set<nat>, b: set<nat>)
    requires a <= b
    ensures |a| <= |b|
  {
    if a != {} {
      var x :| x in a;
      SubsetSize(a - {x}, b - {x});
    }
  }

  /** The free pages f and the tables of pos are fewer than the n pages from v on and their tables would take. */
  ghost predicate TooFew(f: set<nat>, pos0: map<nat, Pos>, pos: map<nat, Pos>, v: nat, n: nat) {
    |f| + |pos.Keys| < |PlaceSet(pos0) + Span(v, n)| + n
  }

  /**
    Pages us and one more at most are given back to an allocator that had no page left, for the next user page or for a
    table it needs. So the n pages and their tables were more than there was.
   */
  lemma RanOut(m: Memory, root: nat, pos0: map<nat, Pos>, pos: map<nat, Pos>, v: nat, n: nat, us: seq<UPage>, w: nat,
               f0: set<nat>, pa: nat, f: set<nat>)
    requires IsTree(m, root, pos) && Labels(pos0, pos, v, n) && w == v + |us| < v + n
    requires f <= f0 + PaSet(us) && f0 <= {pa} && (f0 == {} || NoTable(pos, w))
    ensures |f| <= |us| + 1 && TooFew(f, pos0, pos, v, n)
  {
    PaSetSize(us);
    SubsetSize(f, PaSet(us) + f0);
    TreeNoLarger(m, root, pos0, pos, v, n);
    if f0 != {} {
      assert f0 == {pa};
      TreeSmaller(m, root, pos0, pos, v, n, w);
    }
  }

  /** f has fewer than n elements. */
  ghost predicate Fewer(f: set<nat>, n: nat) {
    n > 0 && (f == {} || var x :| x in f; Fewer(f - {x}, n - 1))
  }

  lemma {:induction false} FewerExactly(f: set<nat>, n: nat)
    ensures Fewer(f, n) <==> |f| < n
    decreases n
  {
    if n > 0 && f != {} {
      var x :| x in f && (Fewer(f, n) <==> Fewer(f - {x}, n - 1));
      FewerExactly(f - {x}, n - 1);
    }
  }

  /** Pages that only move between the free set and a tree keep their number. */
  lemma SameTotal(f: set<nat>, tables: set<nat>, f': set<nat>, tables': set<nat>)
    requires f !! tables && f' !! tables' && f' + tables' == f + tables
    ensures |f'| + |tables'| == |f| + |tables| == |f + tables|
  {
    assert |f' + tables'| == |f'| + |tables'|;
    assert |f + tables| == |f| + |tables|;
  }

  /** What fork needs for a process of n pages: a trapframe, the tables, and the pages. */
  function ForkNeeds(n: nat): nat { 1 + Tables(n) + n }

  lemma ForkNeedsFew(n: nat)
    requires n <= MAXVPN
    ensures ForkNeeds(0) == 4 <= ForkNeeds(n) <= 4 + 3 * n
  {
    PlacesSize(n);
    PlacesMore(n);
    PlacesExactly(n);
  }

  /** The pages that were added one by one are at most the pages that were free. */
  lemma FilledSize(s0: Space, s: Space, root: nat, v: nat, us: seq<UPage>)
    requires Filled(s0, s, root, v, us)
    ensures |us| <= |s0.f|
  {
    PaSetSize(us);
    SubsetSize(PaSet(us), s0.f);
  }

  /** Distinct pages: the k-th is not among the first k. */
  lemma PaNotYet(us: seq<UPage>, k: nat)
    requires DistinctPas(us) && k < |us|
    ensures us[k].pa !in PaSet(us[..k]) && us[k].pa in PaSet(us) && PaSet(us[..k + 1]) == PaSet(us[..k]) + {us[k].pa}
  {
    assert us[k] in us;
    assert us[..k + 1] == us[..k] + [us[k]];
    PaSetNext(us[..k], us[k]);
  }

  lemma NextToUnmap(m0: Memory, m: Memory, root: nat, v: nat, n: nat, k: nat)
    requires UnmapsRange(m0, m, root, v, k) && k < n && v + n <= MAXVPN
    ensures Lookup(m, root, v + k) == Lookup(m0, root, v + k)
  {
  }

  /** The physical pages that uvmunmap has freed after k pages, if it frees them. */
  function Freed(doFree: bool, us: seq<UPage>, k: nat): set<nat> {
    if doFree && k <= |us| then PaSet(us[..k]) else {}
  }

  /** uvmunmap after k pages. */
  ghost predicate Unmapped(s0: Space, s: Space, root: nat, v: nat, k: nat, freed: set<nat>) {
    UnmapsRange(s0.m, s.m, root, v, k) && s.f == s0.f + freed && Untouched(s0.m, s.m, s0.pos.Keys + freed)
    && s.pos == s0.pos
  }

  lemma UnmappedNext(s0: Space, s: Space, s': Space, root: nat, v: nat, k: nat, freed: set<nat>, more: set<nat>)
    requires Unmapped(s0, s, root, v, k, freed) && SetsPage(s.m, s'.m, root, v + k, 0)
    requires s'.f == s.f + more && Untouched(s.m, s'.m, s.pos.Keys + more) && s'.pos == s.pos
    ensures Unmapped(s0, s', root, v, k + 1, freed + more)
  {
  }

  /** What is known of the k-th page before it is unmapped and freed. */
  lemma NextToFree(s0: Space, s: Space, root: nat, v: nat, us: seq<UPage>, k: nat, w: nat)
    requires Unmapped(s0, s, root, v, k, Freed(true, us, k)) && HoldsAll(s0.m, root, v, us) && k < |us|
    requires v + |us| <= MAXVPN
    requires PaSet(us) !! s0.f && PaSet(us) !! s0.pos.Keys && w == v + k
    ensures var e := Lookup(s.m, root, w);
            && IsValid(e) && Pte2Pa(e) == us[k].pa && us[k].pa in s.m && us[k].pa !in s.f && us[k].pa !in s.pos
            && us[k].pa in PaSet(us)
            && Freed(true, us, k + 1) == Freed(true, us, k) + {us[k].pa}
  {
    assert Lookup(s.m, root, w) == Lookup(s0.m, root, w) by { NextToUnmap(s0.m, s.m, root, v, |us|, k); }
    PaNotYet(us, k);
    HoldsAt(s0.m, root, v, us, k, w);
  }

  lemma PaAligned(e: nat)
    ensures Pte2Pa(e) % PGSIZE == 0
  {
  }

  /** Freeing a page that is in no tree leaves the tree as it was. */
  lemma FreeFrame(m: Memory, root: nat, pos: map<nat, Pos>, pa: nat, x: Frame)
    requires IsTree(m, root, pos) && pa !in pos
    ensures IsTree(m[pa := x], root, pos) && SameMap(m, m[pa := x], root)
  {
    forall t | t in pos ensures t in m { assert NodeOk(m, pos, t); }
    TreeFrame(m, m[pa := x], root, pos);
  }

  // ----- adding pages one at a time (uvmalloc and uvmcopy) -----

  /** Memory, free pages and one tree: what the page-adding loops transform. */
  datatype Space = Space(m: Memory, f: set<nat>, pos: map<nat, Pos>)

  /**
    From s0 to s the tree at root gained the pages us at v, v+1, ..., each on its own physical page taken
    from the free set; all other pages are mapped as before; and the pages that left the free
    set are exactly these and the tree's new tables.
   */
  ghost predicate Filled(s0: Space, s: Space, root: nat, v: nat, us: seq<UPage>) {
    && FilledSets(s0, s, us)
    && Untouched(s0.m, s.m, s0.pos.Keys + s0.f)
    && HoldsAll(s.m, root, v, us)
    && forall w :: 0 <= w < MAXVPN && !(v <= w < v + |us|) ==> Lookup(s.m, root, w) == Lookup(s0.m, root, w)
  }

  ghost predicate FilledSets(s0: Space, s: Space, us: seq<UPage>) {
    && s0.pos.Keys <= s.pos.Keys && s.f <= s0.f
    && PaSet(us) <= s0.f && PaSet(us) !! s.f && PaSet(us) !! s.pos.Keys
    && s.f + s.pos.Keys + PaSet(us) == s0.f + s0.pos.Keys
  }

  /** One turn of the loop that went well: page u.pa taken, filled with u.bytes, and mapped. */
  ghost predicate OneMore(s: Space, s': Space, root: nat, v: nat, u: UPage, perm: nat)
    requires perm < 1024
  {
    && u.pa in s.f && u.pa in s.m && u.pa !in s.pos && u.pa % PGSIZE == 0 && u.flags == perm + 1 - perm % 2
    && SetsPage(s.m, s'.m, root, v, LeafPte(u.pa, perm))
    && Grown(s.m[u.pa := Bytes(u.bytes)], s.f - {u.pa}, s.pos, s'.m, s'.f, s'.pos)
  }

  lemma FilledNextSets(s0: Space, s: Space, s': Space, root: nat, v: nat, us: seq<UPage>, u: UPage, perm: nat)
    requires perm < 1024 && s.pos.Keys !! s.f && s'.pos.Keys !! s'.f && FilledSets(s0, s, us)
    requires OneMore(s, s', root, v, u, perm)
    ensures FilledSets(s0, s', us + [u]) && u.pa !in PaSet(us)
  {
    PaSetNext(us, u);
  }

  lemma FilledNextHolds(s0: Space, s: Space, s': Space, root: nat, v: nat, us: seq<UPage>, u: UPage, perm: nat, i: nat)
    requires perm < 1024 && FilledSets(s0, s, us) && HoldsAll(s.m, root, v, us)
    requires v + |us| < MAXVPN && OneMore(s, s', root, v + |us|, u, perm) && i <= |us| && s.pos.Keys !! s.f
    ensures Holds(s'.m, root, v + i, (us + [u])[i])
  {
    if i < |us| {
      assert us[i] in us;
      assert us[i].pa in PaSet(us);
      assert Holds(s.m, root, v + i, us[i]);
    } else {
      LeafPteFields(u.pa, perm);
    }
  }

  lemma FilledNext(s0: Space, s: Space, s': Space, root: nat, v: nat, us: seq<UPage>, u: UPage, perm: nat)
    requires Filled(s0, s, root, v, us) && perm < 1024 && s.pos.Keys !! s.f && s'.pos.Keys !! s'.f
    requires v + |us| < MAXVPN && OneMore(s, s', root, v + |us|, u, perm)
    ensures Filled(s0, s', root, v, us + [u])
  {
    FilledNextSets(s0, s, s', root, v + |us|, us, u, perm);
    forall i | 0 <= i <= |us| ensures Holds(s'.m, root, v + i, (us + [u])[i]) {
      FilledNextHolds(s0, s, s', root, v, us, u, perm, i);
    }
    forall i | 0 <= i < |us| ensures us[i].pa != u.pa {
      assert us[i] in us;
      assert us[i].pa in PaSet(us);
    }
  }

  /** A turn that failed for want of a table page, after its data page was given back. */
  lemma FilledKept(s0: Space, s: Space, s': Space, root: nat, v: nat, us: seq<UPage>)
    requires Filled(s0, s, root, v, us) && s.pos.Keys !! s.f && s'.pos.Keys !! s'.f && v + |us| <= MAXVPN
    requires SameMap(s.m, s'.m, root) && Grown(s.m, s.f, s.pos, s'.m, s'.f, s'.pos)
    ensures Filled(s0, s', root, v, us)
  {
    forall i | 0 <= i < |us| ensures Holds(s'.m, root, v + i, us[i]) {
      assert Holds(s.m, root, v + i, us[i]);
      assert us[i] in us;
      assert us[i].pa in PaSet(us);
    }
  }

  lemma FilledStep(s0: Space, s: Space, s': Space, root: nat, v: nat, us: seq<UPage>, ok: bool, u: UPage, perm: nat)
    requires Filled(s0, s, root, v, us) && perm < 1024 && s.pos.Keys !! s.f && s'.pos.Keys !! s'.f && v + |us| < MAXVPN
    requires ok ==> OneMore(s, s', root, v + |us|, u, perm)
    requires !ok ==> SameMap(s.m, s'.m, root) && Grown(s.m, s.f, s.pos, s'.m, s'.f, s'.pos)
    ensures Filled(s0, s', root, v, if ok then us + [u] else us)
  {
    if ok {
      FilledNext(s0, s, s', root, v, us, u, perm);
    } else {
      FilledKept(s0, s, s', root, v, us);
    }
  }

  lemma FilledOutside(s0: Space, s: Space, root: nat, v: nat, us: seq<UPage>, w: nat)
    requires Filled(s0, s, root, v, us) && 0 <= w < MAXVPN && !(v <= w < v + |us|)
    ensures Lookup(s.m, root, w) == Lookup(s0.m, root, w)
  {
  }

  /** Unmapping and freeing what was added restores the map; only tables are kept. */
  lemma FilledUndone(s0: Space, s: Space, s': Space, root: nat, v: nat, us: seq<UPage>)
    requires Filled(s0, s, root, v, us) && v + |us| <= MAXVPN
    requires Vacant(s0.m, root, v, |us|) && s'.pos == s.pos
    requires UnmapsRange(s.m, s'.m, root, v, |us|) && s'.f == s.f + PaSet(us)
    requires Untouched(s.m, s'.m, s.pos.Keys + PaSet(us))
    ensures SameMap(s0.m, s'.m, root) && Grown(s0.m, s0.f, s0.pos, s'.m, s'.f, s'.pos)
  {
  }

  /** A fresh page filled and then mapped by mappages. */
  lemma MappedOne(s: Space, m1: Memory, s': Space, root: nat, v: nat, p: nat, perm: nat, d: seq<nat>)
    requires perm < 1024 && p in s.f && p in s.m && p !in s.pos && p % PGSIZE == 0
    requires m1 == s.m[p := Bytes(d)] && SameMap(s.m, m1, root)
    requires MapsRange(m1, s'.m, root, v, 1, p, perm) && Grown(m1, s.f - {p}, s.pos, s'.m, s'.f, s'.pos)
    ensures OneMore(s, s', root, v, UPage(p, perm + 1 - perm % 2, d), perm)
  {
  }

  /** The same when mappages failed and the page was freed again. */
  lemma NotMapped(s: Space, m1: Memory, m2: Memory, f2: set<nat>, pos2: map<nat, Pos>, m3: Memory, root: nat, v: nat,
                  p: nat, perm: nat,
                  d: seq<nat>, x: Frame)
    requires perm < 1024 && p in s.f && p in s.m && p !in s.pos
    requires m1 == s.m[p := Bytes(d)] && SameMap(s.m, m1, root)
    requires MapsRange(m1, m2, root, v, 0, p, perm) && Grown(m1, s.f - {p}, s.pos, m2, f2, pos2)
    requires m3 == m2[p := x] && SameMap(m2, m3, root)
    ensures SameMap(s.m, m3, root) && Grown(s.m, s.f, s.pos, m3, f2 + {p}, pos2)
  {
    forall w | 0 <= w < MAXVPN ensures Lookup(m3, root, w) == Lookup(s.m, root, w) {
      assert Lookup(m3, root, w) == Lookup(m2, root, w) && Lookup(m2, root, w) == Lookup(m1, root, w);
    }
    forall q | q in s.m && q !in s.pos.Keys + s.f ensures m3[q] == s.m[q] {
      assert q != p && m2[q] == m1[q];
    }
    GivenBack(s.f, s.pos.Keys, p, f2, pos2.Keys);
  }

  lemma GivenBack(f: set<nat>, tables: set<nat>, p: nat, f': set<nat>, tables': set<nat>)
    requires p in f && f' + tables' == f - {p} + tables
    ensures f' + {p} + tables' == f + tables
  {
    forall q ensures q in f' + {p} + tables' <==> q in f + tables {
      assert q in f' + tables' <==> q in f - {p} + tables;
    }
  }

  // ----- sizes -----

  function PgRoundUp(sz: nat): nat { (sz + PGSIZE - 1) / PGSIZE * PGSIZE }

  /** How many pages a process of sz bytes has. */
  function PageCount(sz: nat): nat { (sz + PGSIZE - 1) / PGSIZE }

  /** A loop over addresses a = v * PGSIZE, a < sz, runs through the pages below PageCount(sz). */
  lemma BelowSize(v: nat, sz: nat)
    ensures v * PGSIZE < sz <==> v < PageCount(sz)
  {
  }

  lemma PageCountRounded(v: nat)
    ensures PageCount(v * PGSIZE) == v && PgRoundUp(v * PGSIZE) == v * PGSIZE
  {
    assert (v * 4096 + 4095) / 4096 == v;
  }

  lemma PageCountMonotone(a: nat, b: nat)
    requires a <= b
    ensures PageCount(a) <= PageCount(b)
  {
  }

  function Least(a: nat, b: nat): nat { if a <= b then a else b }

  function ZeroPage(): seq<nat> { seq(PGSIZE, _ => 0) }

  lemma PageDifference(oldsz: nat, newsz: nat)
    requires newsz <= oldsz
    ensures PageCount(newsz) <= PageCount(oldsz)
    ensures PgRoundUp(newsz) == PageCount(newsz) * PGSIZE && PgRoundUp(oldsz) == PageCount(oldsz) * PGSIZE
    ensures (PgRoundUp(oldsz) - PgRoundUp(newsz)) / PGSIZE == PageCount(oldsz) - PageCount(newsz)
  {
    PageCountMonotone(newsz, oldsz);
  }

  lemma HoldsValid(m: Memory, root: nat, v: nat, us: seq<UPage>)
    requires HoldsAll(m, root, v, us)
    ensures forall w :: v <= w < v + |us| ==> IsValid(Lookup(m, root, w))
  {
    forall w | v <= w < v + |us| ensures IsValid(Lookup(m, root, w)) {
      HoldsAt(m, root, v, us, w - v, w);
    }
  }

  lemma FlagsOdd(e: nat)
    ensures Flags(e) < 1024 && (IsValid(e) ==> Flags(e) % 2 == 1)
  {
    var q, f := e / 1024, e % 1024;
    assert e == 2 * (512 * q) + f;
  }

  /** A leaf of a tree has more than the valid bit. */
  lemma LeafFlags(m: Memory, root: nat, pos: map<nat, Pos>, v: nat)
    requires IsTree(m, root, pos) && v < MAXVPN && IsValid(Lookup(m, root, v))
    ensures Flags(Lookup(m, root, v)) != 1
  {
    var e2 := Entry(m, root, Index(2, v));
    ChildExists(m, root, pos, root, Index(2, v));
    var mid := Pte2Pa(e2);
    ChildExists(m, root, pos, mid, Index(1, v));
    var low := Pte2Pa(Entry(m, mid, Index(1, v)));
    assert NodeOk(m, pos, low);
    assert EntryOk(m[low].ptes[Index(0, v)], pos[low], Index(0, v), pos);
  }

  /** Another tree and its pages are as before when only other pages were written. */
  lemma ParentFrame(m: Memory, m': Memory, root: nat, pos: map<nat, Pos>, ps: seq<UPage>, except: set<nat>)
    requires IsTree(m, root, pos) && HoldsAll(m, root, 0, ps) && |ps| <= MAXVPN
    requires Untouched(m, m', except) && pos.Keys !! except && PaSet(ps) !! except
    ensures IsTree(m', root, pos) && SameMap(m, m', root) && HoldsAll(m', root, 0, ps)
  {
    forall t | t in pos ensures t in m { assert NodeOk(m, pos, t); }
    TreeFrame(m, m', root, pos);
    forall i | 0 <= i < |ps| ensures Holds(m', root, 0 + i, ps[i]) {
      assert Holds(m, root, 0 + i, ps[i]);
      assert ps[i] in ps;
      assert ps[i].pa in PaSet(ps);
    }
  }

  /** Another tree, with user pages ps, beside the space in which pages are being added. */
  ghost predicate Beside(s: Space, parent: nat, ppos: map<nat, Pos>, ps: seq<UPage>) {
    && IsTree(s.m, parent, ppos) && HoldsAll(s.m, parent, 0, ps) && |ps| <= MAXVPN
    && ppos.Keys !! s.pos.Keys && ppos.Keys !! s.f && PaSet(ps) !! s.f && PaSet(ps) !! s.pos.Keys
  }

  lemma ParentKept(s0: Space, s: Space, parent: nat, ppos: map<nat, Pos>, child: nat, v: nat, us: seq<UPage>,
                   ps: seq<UPage>)
    requires Beside(s0, parent, ppos, ps) && Filled(s0, s, child, v, us)
    ensures IsTree(s.m, parent, ppos) && SameMap(s0.m, s.m, parent) && HoldsAll(s.m, parent, 0, ps)
  {
    ParentFrame(s0.m, s.m, parent, ppos, ps, s0.pos.Keys + s0.f);
  }

  /** Freshly allocated user memory: zeroed pages with the given flags. */
  ghost predicate Zeroed(us: seq<UPage>, flags: nat) {
    forall i :: 0 <= i < |us| ==> us[i].flags == flags && us[i].bytes == ZeroPage()
  }

  lemma EvenPerm(xperm: nat)
    requires xperm % 4 == 0
    ensures (18 + xperm) % 2 == 0
  {
    var q := xperm / 4;
    assert xperm == 4 * q;
    EvenPlus(9 + 2 * q, 0);
  }

  lemma ZeroedNext(us: seq<UPage>, u: UPage, flags: nat)
    requires Zeroed(us, flags) && u.flags == flags && u.bytes == ZeroPage()
    ensures Zeroed(us + [u], flags)
  {
  }

  /** The pages us carry the flags and contents of the first pages of ps. */
  ghost predicate CopyOf(us: seq<UPage>, ps: seq<UPage>) {
    |us| <= |ps| && forall i :: 0 <= i < |us| ==> us[i].flags == ps[i].flags && us[i].bytes == ps[i].bytes
  }

  lemma CopyNext(us: seq<UPage>, ps: seq<UPage>, u: UPage)
    requires CopyOf(us, ps) && |us| < |ps|
    requires u.flags == ps[|us|].flags && u.bytes == ps[|us|].bytes
    ensures CopyOf(us + [u], ps)
  {
  }

  // ----- building and taking down whole trees -----

  lemma NewTree(m: Memory, root: nat)
    requires root in m && m[root] == ZeroTable() && root % PGSIZE == 0
    ensures IsTree(m, root, map[root := Root]) && forall v :: 0 <= v < MAXVPN ==> Lookup(m, root, v) == 0
  {
    assert NodeOk(m, map[root := Root], root);
  }

  ghost predicate NoLeaf(m: Memory, pos: map<nat, Pos>) {
    forall u, i {:trigger Entry(m, u, i)} :: u in pos && pos[u].Low? && 0 <= i < ENTRIES ==> Entry(m, u, i) == 0
  }

  lemma EmptyNoLeaf(m: Memory, root: nat, pos: map<nat, Pos>)
    requires IsTree(m, root, pos) && forall v :: 0 <= v < MAXVPN ==> Lookup(m, root, v) == 0
    ensures NoLeaf(m, pos)
  {
    forall u, i {:trigger Entry(m, u, i)} | u in pos && pos[u].Low? && 0 <= i < ENTRIES ensures Entry(m, u, i) == 0 {
      EmptyMapNoLeaf(m, root, pos, u, i);
    }
  }

  /** In a tree without leaves an entry is a pointer to the child at its place, or zero. */
  lemma EntryKinds(m: Memory, root: nat, pos: map<nat, Pos>, t: nat, i: nat)
    requires IsTree(m, root, pos) && NoLeaf(m, pos) && t in pos && i < ENTRIES
    ensures t in m && m[t].Table? && |m[t].ptes| == ENTRIES
    ensures var e := m[t].ptes[i];
            e == 0 || (!pos[t].Low? && IsValid(e) && !Readable(e) && !Writable(e) && !Executable(e)
                       && Pte2Pa(e) in pos && pos[Pte2Pa(e)] == ChildPlace(pos[t], i))
  {
    assert NodeOk(m, pos, t);
    var e := m[t].ptes[i];
    assert e == Entry(m, t, i);
    assert EntryOk(m[t].ptes[i], pos[t], i, pos);
    if e != 0 {
      PointerFlags(e);
    }
  }

  lemma NothingYet(pos: map<nat, Pos>, p: Pos)
    ensures SubUpTo(pos, p, 0) == {}
  {
  }

  lemma SubBelow(pos: map<nat, Pos>, p: Pos, i: nat)
    requires !p.Low?
    ensures Sub(pos, ChildPlace(p, i)) <= Sub(pos, p)
    ensures forall u :: u in pos && pos[u] == p ==> u !in Sub(pos, ChildPlace(p, i))
  {
  }

  lemma SubSkip(m: Memory, root: nat, pos: map<nat, Pos>, t: nat, i: nat)
    requires IsTree(m, root, pos) && t in pos && i < ENTRIES && !IsValid(Entry(m, t, i))
    ensures SubUpTo(pos, pos[t], i + 1) == SubUpTo(pos, pos[t], i)
  {
    if !pos[t].Low? {
      SubEmpty(m, root, pos, t, i);
      SubNext(pos, pos[t], i);
    }
  }

  lemma AllGone(m: Memory, m': Memory, root: nat, n: nat)
    requires n <= MAXVPN && Vacant(m, root, n, MAXVPN - n)
    requires UnmapsRange(m, m', root, 0, n) || (n == 0 && m' == m)
    ensures forall v :: 0 <= v < MAXVPN ==> Lookup(m', root, v) == 0
  {
    forall v | 0 <= v < MAXVPN ensures Lookup(m', root, v) == 0 {
      assert v >= n ==> Lookup(m, root, v) == 0;
    }
  }

  /** From page n on, only the trampoline and trapframe pages at the top are mapped. */
  ghost predicate OnlyKernelPages(m: Memory, root: nat, n: nat, trampoline: nat, trapframe: nat) {
    forall v :: n <= v < MAXVPN ==>
      Lookup(m, root, v) == if v == MAXVPN - 1 then LeafPte(trampoline, 10)
      else if v == MAXVPN - 2 then LeafPte(trapframe, 6) else 0
  }

  lemma NoUserPages(m: Memory, root: nat)
    ensures PageCount(0) == 0 && PaSet([]) == {} && HoldsAll(m, root, 0, [])
  {
  }

  /** all is the disjoint union of the four sets. */
  ghost predicate Parted(all: set<nat>, a: set<nat>, b: set<nat>, c: set<nat>, d: set<nat>) {
    all == a + b + c + d && a !! b && a !! c && a !! d && b !! c && b !! d && c !! d
  }

  lemma KernelPagesOnly(m: Memory, root: nat, n: nat, trampoline: nat, trapframe: nat)
    requires OnlyKernelPages(m, root, 0, trampoline, trapframe) && n <= MAXVPN - 2
    ensures Vacant(m, root, 0, n)
  {
  }

  lemma KernelPagesValid(m: Memory, root: nat, n: nat, trampoline: nat, trapframe: nat)
    requires OnlyKernelPages(m, root, n, trampoline, trapframe) && n <= MAXVPN - 2
    ensures IsValid(Lookup(m, root, MAXVPN - 1)) && IsValid(Lookup(m, root, MAXVPN - 2))
  {
    EntryValid(trampoline, 10);
    EntryValid(trapframe, 6);
  }

  lemma EntryValid(pa: nat, perm: nat)
    requires perm < 1024
    ensures IsValid(LeafPte(pa, perm))
  {
    var q, h := pa / 4096, perm / 2;
    assert perm == 2 * h + perm % 2;
    assert LeafPte(pa, perm) == 2 * (512 * q + h) + 1;
  }

  /** With the two kernel pages unmapped, the tree maps the user pages only. */
  lemma KernelPagesGone(m0: Memory, m1: Memory, m2: Memory, root: nat, us: seq<UPage>, tables: set<nat>,
                        trampoline: nat, trapframe: nat)
    requires OnlyKernelPages(m0, root, |us|, trampoline, trapframe) && |us| <= MAXVPN - 2 && HoldsAll(m0, root, 0, us)
    requires UnmapsRange(m0, m1, root, MAXVPN - 1, 1) && UnmapsRange(m1, m2, root, MAXVPN - 2, 1)
    requires Untouched(m0, m1, tables) && Untouched(m1, m2, tables) && PaSet(us) !! tables
    ensures HoldsAll(m2, root, 0, us) && Vacant(m2, root, |us|, MAXVPN - |us|) && Untouched(m0, m2, tables)
  {
    forall i | 0 <= i < |us| ensures Holds(m2, root, 0 + i, us[i]) {
      assert Holds(m0, root, 0 + i, us[i]);
      assert us[i] in us;
      assert us[i].pa in PaSet(us);
    }
  }

  lemma ForkDone(f0: set<nat>, s1: Space, s: Space, child: nat, us: seq<UPage>, trampoline: nat, trapframe: nat)
    requires Filled(s1, s, child, 0, us) && |us| <= MAXVPN - 2 && OnlyKernelPages(s1.m, child, 0, trampoline, trapframe)
    requires s.pos.Keys !! s.f && f0 == s1.f + s1.pos.Keys + {trapframe} && trapframe !in s1.f + s1.pos.Keys
    ensures OnlyKernelPages(s.m, child, |us|, trampoline, trapframe)
    ensures Parted(f0, s.f, {trapframe}, s.pos.Keys, PaSet(us)) && Untouched(s1.m, s.m, f0)
  {
  }

  lemma PartedSize(all: set<nat>, a: set<nat>, b: set<nat>, c: set<nat>, d: set<nat>)
    requires Parted(all, a, b, c, d)
    ensures |all| == |a| + |b| + |c| + |d|
  {
    assert |a + b| == |a| + |b|;
    assert |a + b + c| == |a + b| + |c|;
    assert |a + b + c + d| == |a + b + c| + |d|;
  }

  lemma TablesComplete(m: Memory, root: nat, pos0: map<nat, Pos>, pos: map<nat, Pos>, f: set<nat>, trampoline: nat,
                       trapframe: nat)
    requires IsTree(m, root, pos) && pos0 == map[root := Root] && Labels(pos0, pos, MAXVPN - 2, 2) && pos.Keys !! f
    requires OnlyKernelPages(m, root, 0, trampoline, trapframe)
    ensures PlaceSet(pos) == Places(0) && !Fewer(f + pos.Keys, 3)
  {
    KernelPagesValid(m, root, 0, trampoline, trapframe);
    TablesThree(m, root, pos0, pos);
    SameTotal(f, pos.Keys, f, pos.Keys);
    FewerExactly(f + pos.Keys, 3);
  }

  /** The three free pages that proc_pagetable needs, and the fourth of allocproc. */
  lemma OneMoreFree(f: set<nat>, p: nat)
    requires p in f
    ensures Fewer(f - {p}, 3) <==> Fewer(f, 4)
  {
    FewerExactly(f - {p}, 3);
    FewerExactly(f, 4);
  }

  lemma NoneFree(n: nat)
    requires 0 < n
    ensures Fewer({}, n)
  {
    FewerExactly({}, n);
  }

  lemma FewTables(m: Memory, root: nat, pos0: map<nat, Pos>, pos: map<nat, Pos>, v: nat)
    requires IsTree(m, root, pos) && pos0 == map[root := Root] && Labels(pos0, pos, MAXVPN - 2, 2)
    requires MAXVPN - 2 <= v < MAXVPN && NoTable(pos, v)
    ensures Fewer(pos.Keys, 3)
  {
    TablesShort(m, root, pos0, pos, v);
    FewerExactly(pos.Keys, 3);
  }

  lemma FewerMore(f: set<nat>, n: nat, k: nat)
    requires Fewer(f, n) && n <= k
    ensures Fewer(f, k)
  {
    FewerExactly(f, n);
    FewerExactly(f, k);
  }

  lemma ForkSum(f0: set<nat>, f: set<nat>, trapframe: nat, tables: set<nat>, us: seq<UPage>)
    requires Parted(f0, f, {trapframe}, tables, PaSet(us)) && DistinctPas(us)
    ensures !Fewer(f0, 1 + |tables| + |us|)
  {
    PaSetSize(us);
    PartedSize(f0, f, {trapframe}, tables, PaSet(us));
    FewerExactly(f0, 1 + |tables| + |us|);
  }

  /** A finished child has exactly the tables and pages that fork needs. */
  lemma ForkTook(f0: set<nat>, s1: Space, s: Space, child: nat, us: seq<UPage>, trampoline: nat, trapframe: nat)
    requires Filled(s1, s, child, 0, us) && |us| <= MAXVPN - 2 && IsTree(s.m, child, s.pos)
    requires IsTree(s1.m, child, s1.pos) && OnlyKernelPages(s1.m, child, 0, trampoline, trapframe)
    requires Labels(map[child := Root], s1.pos, MAXVPN - 2, 2) && Labels(s1.pos, s.pos, 0, |us|)
    requires Parted(f0, s.f, {trapframe}, s.pos.Keys, PaSet(us))
    ensures !Fewer(f0, ForkNeeds(|us|))
  {
    ForkSum(f0, s.f, trapframe, s.pos.Keys, us);
    HoldsValid(s.m, child, 0, us);
    ForkTables(s1.m, s.m, child, s1.pos, s.pos, |us|, trampoline, trapframe);
  }

  lemma ForkTables(m1: Memory, m: Memory, child: nat, pos1: map<nat, Pos>, pos: map<nat, Pos>, n: nat, trampoline: nat,
                   trapframe: nat)
    requires IsTree(m, child, pos) && n <= MAXVPN && forall w :: 0 <= w < n ==> IsValid(Lookup(m, child, w))
    requires IsTree(m1, child, pos1) && OnlyKernelPages(m1, child, 0, trampoline, trapframe)
    requires Labels(map[child := Root], pos1, MAXVPN - 2, 2) && Labels(pos1, pos, 0, n)
    ensures |pos.Keys| == Tables(n)
  {
    TablesComplete(m1, child, map[child := Root], pos1, {}, trampoline, trapframe);
    TreeExactly(m, child, pos1, pos, 0, n);
    PlacesMore(n);
    PlacesExactly(n);
  }

  /** And one that could not be finished had fewer than those to begin with. */
  lemma ForkLacked(f0: set<nat>, s1: Space, s: Space, child: nat, n: nat, trampoline: nat, trapframe: nat)
    requires s1.f !! s1.pos.Keys && s.f !! s.pos.Keys && s.f + s.pos.Keys == s1.f + s1.pos.Keys
    requires IsTree(s1.m, child, s1.pos) && OnlyKernelPages(s1.m, child, 0, trampoline, trapframe)
    requires Labels(map[child := Root], s1.pos, MAXVPN - 2, 2) && TooFew(s.f, s1.pos, s.pos, 0, n) && n <= MAXVPN
    requires f0 == s1.f + s1.pos.Keys + {trapframe} && trapframe !in s1.f + s1.pos.Keys
    ensures Fewer(f0, ForkNeeds(n))
  {
    FewerExactly(f0, ForkNeeds(n));
    TablesComplete(s1.m, child, map[child := Root], s1.pos, {}, trampoline, trapframe);
    SameTotal(s1.f, s1.pos.Keys, s.f, s.pos.Keys);
    PlacesMore(n);
    PlacesExactly(n);
  }

  // ----- uvmclear -----

  /** pte & ~PTE_U */
  function WithoutUser(e: nat): nat { if User(e) then e - 16 else e }

  lemma EvenPlus(a: nat, b: nat)
    ensures (2 * a + b) % 2 == b % 2
  {
  }

  lemma FlagParts(q: nat, f: nat)
    requires f < 1024
    ensures (1024 * q + f) / 1024 == q && (1024 * q + f) % 1024 == f
    ensures (1024 * q + f) / 16 == 64 * q + f / 16 && (1024 * q + f) / 2 == 512 * q + f / 2
  {
  }

  /** The flag bits of an entry can be read off its flags. */
  lemma FlagBits(e: nat)
    ensures User(Flags(e)) == User(e) && Readable(Flags(e)) == Readable(e) && (User(e) ==> Flags(e) >= 16)
    ensures IsValid(Flags(e)) == IsValid(e)
  {
    var q, f := e / 1024, e % 1024;
    FlagParts(q, f);
    EvenPlus(32 * q, f / 16);
    EvenPlus(256 * q, f / 2);
    EvenPlus(512 * q, f);
  }

  lemma WithoutUserFields(e: nat)
    requires IsValid(e) && Readable(e)
    ensures var c := WithoutUser(e);
            && IsValid(c) && Pte2Pa(c) == Pte2Pa(e) && Flags(c) != 1
            && Flags(c) == Flags(e) - if User(e) then 16 else 0
  {
    FlagBits(e);
    if User(e) {
      FlagParts(e / 1024, e % 1024 - 16);
      ReadableLess(e % 1024);
      FlagBits(e - 16);
    }
  }

  lemma ReadableLess(f: nat)
    requires 16 <= f && Readable(f) && IsValid(f)
    ensures Readable(f - 16) && IsValid(f - 16) && f - 16 != 1
  {
    assert (f - 16) / 2 == f / 2 - 8;
  }
}
