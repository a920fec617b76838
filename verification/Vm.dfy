/**
  The kernel's page-table code over physical memory and the set of free pages.

  Each method that works on one page table takes the labelling of its tree (see PageTable) as a
  ghost argument and returns the new one. Panics are preconditions: they are what the code
  demands of its callers.
 */
module Vm {
  import opened PageTable
  import opened VmSpec
  import opened CopySpec
  import opened TableCount
  import K = Kalloc

  class Vm {
    const lo: nat
    const hi: nat
    const kmem: K.Kmem
    var mem: Memory
    ghost var free: set<nat>

    /** The free pages are those on the allocator's list. */
    ghost predicate Ready()
      reads this, kmem
    {
      && kmem.Valid() && kmem.end == lo && kmem.phystop == hi && kmem.pages == free
      && 0 < lo && forall p :: p in free ==> p in mem && p % PGSIZE == 0 && lo <= p < hi
    }

    /** The tables of a tree are pages of the allocator's range that are not free. */
    ghost predicate Owns(root: nat, pos: map<nat, Pos>)
      reads this
    {
      IsTree(mem, root, pos) && pos.Keys !! free && forall t :: t in pos ==> lo <= t < hi
    }

    /** kinit: every whole page between the kernel's end and the top of memory is free. */
    constructor (lo: nat, hi: nat)
      requires 0 < lo
      ensures Ready() && this.lo == lo && this.hi == hi && fresh(kmem)
      ensures forall p :: p in free <==> p % PGSIZE == 0 && lo <= p && p + PGSIZE <= hi
    {
      this.lo, this.hi := lo, hi;
      kmem := new K.Kmem(lo, hi);
      mem := map p: nat | lo <= p < hi && p % PGSIZE == 0 :: Bytes(seq(PGSIZE, _ => 1));
      free := {};
      new;
      kmem.FreeRange(lo, hi);
      free := kmem.pages;
    }

    method Kalloc() returns (p: nat)
      requires Ready()
      modifies this, kmem
      ensures Ready()
      ensures p == 0 <==> old(free) == {}
      ensures p == 0 ==> free == old(free) && mem == old(mem)
      ensures p != 0 ==> p in old(free) && free == old(free) - {p} && mem == old(mem)[p := Bytes(seq(PGSIZE, _ => 5))]
    {
      p := kmem.Kalloc();
      if p != 0 {
        free := free - {p};
        mem := mem[p := Bytes(seq(PGSIZE, _ => 5))];
      }
    }

    method Kfree(p: nat)
      requires Ready() && p % PGSIZE == 0 && lo <= p < hi && p in mem && p !in free
      modifies this, kmem
      ensures Ready() && free == old(free) + {p} && mem == old(mem)[p := Bytes(seq(PGSIZE, _ => 1))]
    {
      mem := mem[p := Bytes(seq(PGSIZE, _ => 1))];
      kmem.Kfree(p);
      free := free + {p};
    }

    /** walk's allocation branch: a zeroed page hung below an invalid entry. */
    method NewTable(root: nat, table: nat, i: nat, ghost pos: map<nat, Pos>)
      returns (page: nat, ghost pos': map<nat, Pos>)
      requires Ready() && Owns(root, pos) && table in pos && !pos[table].Low? && i < ENTRIES
      requires !IsValid(Entry(mem, table, i)) && (pos[table].Root? ==> i < 256)
      modifies this, kmem
      ensures Ready() && Owns(root, pos') && SameMap(old(mem), mem, root)
      ensures Grown(old(mem), old(free), pos, mem, free, pos')
      ensures page == 0 ==> free == {} && mem == old(mem) && pos' == pos
      ensures page != 0 ==> page !in pos && pos' == pos[page := ChildPlace(pos[table], i)]
    {
      assert NodeOk(mem, pos, table);
      pos' := pos;
      page := Kalloc();
      if page != 0 {
        FreeFrame(old(mem), root, pos, page, Bytes(seq(PGSIZE, _ => 5)));
        HangTree(mem, root, pos, table, i, page);
        HangMap(mem, root, pos, table, i, page);
        mem := Hang(mem, table, i, page);
        pos' := pos[page := ChildPlace(pos[table], i)];
      }
    }

    method Walk(root: nat, va: nat, alloc: bool, ghost pos: map<nat, Pos>)
      returns (slot: Slot, ghost pos': map<nat, Pos>)
      requires Ready() && Owns(root, pos) && va < MAXVA
      modifies this, kmem
      ensures Ready() && Owns(root, pos') && SameMap(old(mem), mem, root)
      ensures Grown(old(mem), old(free), pos, mem, free, pos')
      ensures slot.Slot? ==> SlotOf(slot, pos', va / PGSIZE)
      ensures !alloc ==> mem == old(mem) && free == old(free) && pos' == pos
      ensures slot.None? && !alloc ==> Lookup(mem, root, va / PGSIZE) == 0
      ensures slot.None? && alloc ==> free == {} && NoTable(pos', va / PGSIZE)
      ensures Labels(pos, pos', va / PGSIZE, 1)
    {
      ghost var v := va / PGSIZE;
      IndicesSpellPage(v);
      LabelsSame(pos, v, 1);
      var table := root;
      pos' := pos;
      var level := 2;
      while level > 0
        invariant 0 <= level <= 2 && Ready() && Owns(root, pos') && SameMap(old(mem), mem, root)
        invariant Grown(old(mem), old(free), pos, mem, free, pos')
        invariant table in pos' && pos'[table] == PlaceAt(level, v) && Labels(pos, pos', v, 1)
        invariant !alloc ==> mem == old(mem) && free == old(free) && pos' == pos
      {
        var i := Px(level, va);
        PxIsIndex(level, va);
        assert NodeOk(mem, pos', table);
        var pte := mem[table].ptes[i];
        if IsValid(pte) {
          ChildExists(mem, root, pos', table, i);
          table := Pte2Pa(pte);
        } else {
          if !alloc {
            NoTableNoLeaf(mem, root, pos', table, level, v);
            return None, pos';
          }
          ghost var m, f, p, t := mem, free, pos', table;
          table, pos' := NewTable(root, table, i, pos');
          GrownTrans(old(mem), old(free), pos, m, f, p, mem, free, pos');
          if table == 0 {
            NoTableNoLeaf(mem, root, pos', t, level, v);
            assert NoTable(pos', v);
            return None, pos';
          }
          LabelsAdd(pos, p, table, level - 1, v, v, 1);
        }
        level := level - 1;
      }
      PxIsIndex(0, va);
      return Slot(table, Px(0, va)), pos';
    }

    /** A write through the pointer that walk returned. */
    method SetLeaf(root: nat, slot: Slot, ghost v: nat, e: nat, ghost pos: map<nat, Pos>)
      requires Ready() && Owns(root, pos) && v < MAXVPN && (e == 0 || (IsValid(e) && Flags(e) != 1))
      requires SlotOf(slot, pos, v)
      modifies this`mem
      ensures Ready() && Owns(root, pos) && SetsPage(old(mem), mem, root, v, e)
      ensures Untouched(old(mem), mem, pos.Keys)
    {
      assert NodeOk(mem, pos, slot.table);
      SetLeafTree(mem, root, pos, slot.table, slot.index, e);
      mem := SetEntry(mem, slot.table, slot.index, e);
      forall w | 0 <= w < MAXVPN ensures Lookup(mem, root, w) == if w == v then e else Lookup(old(mem), root, w) {
        SetLeafLookup(old(mem), root, pos, slot.table, v, e, w);
      }
    }

    /** One page of mappages. */
    method MapOne(root: nat, va: nat, ghost v: nat, pa: nat, perm: nat, ghost pos: map<nat, Pos>)
      returns (ok: bool, ghost pos': map<nat, Pos>)
      requires Ready() && Owns(root, pos) && va == v * PGSIZE && v < MAXVPN && pa % PGSIZE == 0 && 2 <= perm < 1024
      requires Lookup(mem, root, v) == 0
      modifies this, kmem
      ensures Ready() && Owns(root, pos')
      ensures Grown(old(mem), old(free), pos, mem, free, pos')
      ensures if ok then SetsPage(old(mem), mem, root, v, LeafPte(pa, perm))
              else SameMap(old(mem), mem, root) && free == {} && NoTable(pos', v)
      ensures Labels(pos, pos', v, 1)
    {
      PageNumber(va, v);
      var slot;
      slot, pos' := Walk(root, va, true, pos);
      if slot.None? {
        return false, pos';
      }
      LeafPteFields(pa, perm);
      SetLeaf(root, slot, v, LeafPte(pa, perm), pos');
      ok := true;
    }

    /**
      Adds the pages from va. It fails only when no page is left for a table, after `done` pages;
      every other page keeps its mapping.
     */
    method MapPages(root: nat, va: nat, size: nat, pa: nat, perm: nat, ghost v: nat, ghost n: nat,
                    ghost pos: map<nat, Pos>)
      returns (ok: bool, ghost done: nat, ghost pos': map<nat, Pos>)
      requires Ready() && Owns(root, pos)
      requires va == v * PGSIZE && size == n * PGSIZE && 0 < n && v + n <= MAXVPN
      requires pa % PGSIZE == 0 && 2 <= perm < 1024 && Vacant(mem, root, v, n)
      modifies this, kmem
      ensures Ready() && Owns(root, pos')
      ensures MapsRange(old(mem), mem, root, v, done, pa, perm)
      ensures if ok then done == n else done < n && free == {} && NoTable(pos', v + done)
      ensures Grown(old(mem), old(free), pos, mem, free, pos') && Labels(pos, pos', v, n)
    {
      LabelsSame(pos, v, n);
      var a, b := va, pa;
      var last := va + size - PGSIZE;
      pos', done := pos, 0;
      while true
        invariant Ready() && Owns(root, pos') && done < n
        invariant a == (v + done) * PGSIZE && b == pa + done * PGSIZE
        invariant MapsRange(old(mem), mem, root, v, done, pa, perm)
        invariant Grown(old(mem), old(free), pos, mem, free, pos') && Labels(pos, pos', v, n)
        decreases n - done
      {
        ghost var m, f, p := mem, free, pos';
        NextToMap(old(mem), mem, root, v, n, done, pa, perm, b);
        ok, pos' := MapOne(root, a, v + done, b, perm, pos');
        GrownTrans(old(mem), old(free), pos, m, f, p, mem, free, pos');
        LabelsTrans(pos, p, pos', v, n, v + done, 1);
        if !ok {
          return false, done, pos';
        }
        ExtendRange(old(mem), m, mem, root, v, done, pa, perm, b);
        done := done + 1;
        if a == last {
          return true, done, pos';
        }
        a := a + PGSIZE;
        b := b + PGSIZE;
      }
    }

    /** walk without allocation, then a read through the pointer. */
    method ReadLeaf(root: nat, a: nat, ghost v: nat, ghost pos: map<nat, Pos>) returns (slot: Slot, pte: nat)
      requires Ready() && Owns(root, pos) && a == v * PGSIZE && v < MAXVPN
      modifies this, kmem
      ensures Ready() && mem == old(mem) && free == old(free)
      ensures if slot.None? then Lookup(mem, root, v) == 0 && pte == 0
              else SlotOf(slot, pos, v) && pte == Lookup(mem, root, v)
    {
      PageNumber(a, v);
      ghost var pos';
      slot, pos' := Walk(root, a, false, pos);
      if slot.None? {
        pte := 0;
      } else {
        LookupAt(mem, root, pos, slot.table, v);
        assert NodeOk(mem, pos, slot.table);
        pte := mem[slot.table].ptes[slot.index];
      }
    }

    /** One page of uvmunmap. */
    method UnmapOne(root: nat, a: nat, ghost v: nat, doFree: bool, ghost pos: map<nat, Pos>)
      requires Ready() && Owns(root, pos) && a == v * PGSIZE && v < MAXVPN && IsValid(Lookup(mem, root, v))
      requires doFree ==> var pa := Pte2Pa(Lookup(mem, root, v));
                          pa in mem && lo <= pa < hi && pa !in free && pa !in pos
      modifies this, kmem
      ensures Ready() && Owns(root, pos) && SetsPage(old(mem), mem, root, v, 0)
      ensures var freed := if doFree then {Pte2Pa(old(Lookup(mem, root, v)))} else {};
              free == old(free) + freed && Untouched(old(mem), mem, pos.Keys + freed)
    {
      var slot, pte := ReadLeaf(root, a, v, pos);
      if doFree {
        PaAligned(pte);
        FreeFrame(mem, root, pos, Pte2Pa(pte), Bytes(seq(PGSIZE, _ => 1)));
        Kfree(Pte2Pa(pte));
      }
      SetLeaf(root, slot, v, 0, pos);
    }

    /**
      Removes exactly the npages from va. When asked to free them, they are the distinct pages us, in use
      for nothing else, and exactly their physical pages become free.
     */
    method UvmUnmap(root: nat, va: nat, npages: nat, doFree: bool, ghost v: nat, ghost us: seq<UPage>,
                    ghost pos: map<nat, Pos>)
      requires Ready() && Owns(root, pos) && va == v * PGSIZE && v + npages <= MAXVPN
      requires forall w :: v <= w < v + npages ==> IsValid(Lookup(mem, root, w))
      requires if doFree then Freeable(root, v, us, pos) && npages == |us| else us == []
      modifies this, kmem
      ensures Ready() && Owns(root, pos) && UnmapsRange(old(mem), mem, root, v, npages)
      ensures free == old(free) + PaSet(us) && Untouched(old(mem), mem, pos.Keys + PaSet(us))
    {
      var a := va;
      ghost var k := 0;
      ghost var s0 := Space(mem, free, pos);
      assert Freed(doFree, us, 0) == {};
      while a < va + npages * PGSIZE
        invariant 0 <= k <= npages && a == (v + k) * PGSIZE && Ready() && Owns(root, pos)
        invariant Unmapped(s0, Space(mem, free, pos), root, v, k, Freed(doFree, us, k))
      {
        ghost var s, w := Space(mem, free, pos), v + k;
        assert Lookup(mem, root, w) == Lookup(s0.m, root, w) by { NextToUnmap(s0.m, mem, root, v, npages, k); }
        if doFree {
          NextToFree(s0, s, root, v, us, k, w);
        }
        UnmapOne(root, a, w, doFree, pos);
        UnmappedNext(s0, s, Space(mem, free, pos), root, v, k, Freed(doFree, us, k), if doFree then {us[k].pa} else {});
        a := a + PGSIZE;
        k := k + 1;
      }
      assert doFree ==> us[..k] == us;
      assert !doFree ==> PaSet(us) == {};
    }

    /** The pages us are mapped at v, v+1, ..., lie in the allocator's range, and are neither free nor tables. */
    ghost predicate Freeable(root: nat, v: nat, us: seq<UPage>, pos: map<nat, Pos>)
      reads this
    {
      HoldsAll(mem, root, v, us) && PaSet(us) !! free && PaSet(us) !! pos.Keys && forall p :: p in PaSet(us) ==>
          lo <= p < hi
    }

    /** kalloc, fill, mappages, and kfree again when mappages fails: a turn of uvmalloc's and uvmcopy's loops. */
    method AddPage(root: nat, a: nat, ghost v: nat, d: seq<nat>, perm: nat, ghost pos: map<nat, Pos>)
      returns (ok: bool, ghost u: UPage, ghost pos': map<nat, Pos>)
      requires Ready() && Owns(root, pos) && a == v * PGSIZE && v < MAXVPN && 2 <= perm < 1024
      requires Lookup(mem, root, v) == 0
      modifies this, kmem
      ensures Ready() && Owns(root, pos') && u.bytes == d
      ensures ok ==> OneMore(Space(old(mem), old(free), pos), Space(mem, free, pos'), root, v, u, perm)
      ensures !ok ==> SameMap(old(mem), mem, root) && Grown(old(mem), old(free), pos, mem, free, pos') && free <= {u.pa}
      ensures !ok ==> free == {} || NoTable(pos', v)
      ensures Labels(pos, pos', v, 1)
    {
      ghost var s := Space(mem, free, pos);
      var page := Kalloc();
      u := UPage(page, perm + 1 - perm % 2, d);
      LabelsSame(pos, v, 1);
      if page == 0 {
        return false, u, pos;
      }
      mem := mem[page := Bytes(d)];
      assert mem == s.m[page := Bytes(d)];
      ok, pos' := MapPage(root, a, page, v, d, perm, s);
    }

    /** The page is filled and mapped, or given back. */
    method MapPage(root: nat, a: nat, page: nat, ghost v: nat, d: seq<nat>, perm: nat, ghost s: Space)
      returns (ok: bool, ghost pos': map<nat, Pos>)
      requires Ready() && a == v * PGSIZE && v < MAXVPN && 2 <= perm < 1024 && IsTree(s.m, root, s.pos)
      requires page in s.f && page in s.m && page % PGSIZE == 0 && lo <= page < hi && free == s.f - {page}
      requires s.pos.Keys !! s.f && (forall t :: t in s.pos ==> lo <= t < hi) && Lookup(s.m, root, v) == 0
      requires mem == s.m[page := Bytes(d)]
      modifies this, kmem
      ensures Ready() && Owns(root, pos') && Labels(s.pos, pos', v, 1)
      ensures ok ==> OneMore(s, Space(mem, free, pos'), root, v, UPage(page, perm + 1 - perm % 2, d), perm)
      ensures !ok ==> SameMap(s.m, mem, root) && Grown(s.m, s.f, s.pos, mem, free, pos') && free == {page}
      ensures !ok ==> NoTable(pos', v)
    {
      ghost var m1 := mem;
      FreeFrame(s.m, root, s.pos, page, Bytes(d));
      ghost var done;
      ok, done, pos' := MapPages(root, a, PGSIZE, page, perm, v, 1, s.pos);
      if ok {
        MappedOne(s, m1, Space(mem, free, pos'), root, v, page, perm, d);
      } else {
        GiveBack(root, page, v, d, perm, s, m1, pos');
      }
    }

    /** kfree of the page that could not be mapped. */
    method GiveBack(ghost root: nat, page: nat, ghost v: nat, ghost d: seq<nat>, ghost perm: nat, ghost s: Space,
                    ghost m1: Memory, ghost pos': map<nat, Pos>)
      requires Ready() && Owns(root, pos') && perm < 1024 && free == {}
      requires page in s.f && page in s.m && page !in s.pos && page % PGSIZE == 0 && lo <= page < hi
      requires m1 == s.m[page := Bytes(d)] && SameMap(s.m, m1, root)
      requires MapsRange(m1, mem, root, v, 0, page, perm) && Grown(m1, s.f - {page}, s.pos, mem, free, pos')
      modifies this, kmem
      ensures Ready() && Owns(root, pos') && free == {page}
      ensures SameMap(s.m, mem, root) && Grown(s.m, s.f, s.pos, mem, free, pos')
    {
      ghost var m2 := mem;
      FreeFrame(mem, root, pos', page, Bytes(seq(PGSIZE, _ => 1)));
      Kfree(page);
      NotMapped(s, m1, m2, {}, pos', mem, root, v, page, perm, d, Bytes(seq(PGSIZE, _ => 1)));
    }

    /** AddPage as one more turn after the pages us were added from page v on; w is the next one. */
    method AddNext(root: nat, a: nat, d: seq<nat>, perm: nat, ghost s0: Space, ghost v: nat, ghost us: seq<UPage>,
                   ghost w: nat, ghost pos: map<nat, Pos>)
      returns (ok: bool, ghost u: UPage, ghost pos': map<nat, Pos>)
      requires Ready() && Owns(root, pos) && w == v + |us| && a == w * PGSIZE && w < MAXVPN && 2 <= perm < 1024
      requires Filled(s0, Space(mem, free, pos), root, v, us) && Lookup(s0.m, root, w) == 0
      modifies this, kmem
      ensures Ready() && Owns(root, pos')
      ensures Filled(s0, Space(mem, free, pos'), root, v, if ok then us + [u] else us)
      ensures ok ==> u.flags == perm + 1 - perm % 2 && u.bytes == d
      ensures !ok ==> free <= {u.pa} && (free == {} || NoTable(pos', w))
      ensures Labels(pos, pos', w, 1)
    {
      ghost var s := Space(mem, free, pos);
      FilledOutside(s0, s, root, v, us, w);
      ok, u, pos' := AddPage(root, a, w, d, perm, pos);
      FilledStep(s0, s, Space(mem, free, pos'), root, v, us, ok, u, perm);
    }

    /** Frees the pages between the two sizes; neither needs to be page-aligned. */
    method UvmDealloc(root: nat, oldsz: nat, newsz: nat, ghost us: seq<UPage>, ghost pos: map<nat, Pos>)
      returns (r: nat)
      requires Ready() && Owns(root, pos) && PageCount(oldsz) <= MAXVPN
      requires newsz < oldsz ==>
                Freeable(root, PageCount(newsz), us, pos) && PageCount(oldsz) == PageCount(newsz) + |us|
      modifies this, kmem
      ensures Ready() && Owns(root, pos)
      ensures if newsz >= oldsz then r == oldsz && mem == old(mem) && free == old(free)
              else && r == newsz && UnmapsRange(old(mem), mem, root, PageCount(newsz), |us|)
                   && free == old(free) + PaSet(us) && Untouched(old(mem), mem, pos.Keys + PaSet(us))
    {
      if newsz >= oldsz {
        return oldsz;
      }
      if PgRoundUp(newsz) < PgRoundUp(oldsz) {
        var npages := (PgRoundUp(oldsz) - PgRoundUp(newsz)) / PGSIZE;
        PageDifference(oldsz, newsz);
        HoldsValid(mem, root, PageCount(newsz), us);
        UvmUnmap(root, PgRoundUp(newsz), npages, true, PageCount(newsz), us, pos);
      } else {
        PageDifference(oldsz, newsz);
        assert us == [] && PaSet(us) == {};
      }
      return newsz;
    }

    /** Gives back the pages us that were added from page v on; only tables stay. */
    method Undo(root: nat, a: nat, start: nat, ghost s0: Space, ghost v: nat, ghost us: seq<UPage>,
                ghost pos: map<nat, Pos>)
      requires Ready() && Owns(root, pos) && start == v * PGSIZE && a == (v + |us|) * PGSIZE && v + |us| <= MAXVPN
      requires Filled(s0, Space(mem, free, pos), root, v, us) && Vacant(s0.m, root, v, |us|)
      requires forall p :: p in s0.f ==> lo <= p < hi
      modifies this, kmem
      ensures Ready() && Owns(root, pos)
      ensures SameMap(s0.m, mem, root) && Grown(s0.m, s0.f, s0.pos, mem, free, pos) && free == old(free) + PaSet(us)
    {
      ghost var s := Space(mem, free, pos);
      PageCountRounded(v);
      PageCountRounded(v + |us|);
      if us == [] {
        assert PaSet(us) == {};
      }
      var r := UvmDealloc(root, a, start, us, pos);
      FilledUndone(s0, s, Space(mem, free, pos), root, v, us);
    }

    /** A turn of uvmalloc's loop. */
    method AddOrUndo(root: nat, a: nat, start: nat, perm: nat, ghost s0: Space, ghost v: nat, ghost us: seq<UPage>,
                     ghost w: nat, ghost n: nat, ghost flags: nat, ghost pos: map<nat, Pos>)
      returns (added: bool, ghost u: UPage, ghost pos': map<nat, Pos>)
      requires Ready() && Owns(root, pos) && w == v + |us| && start == v * PGSIZE && a == w * PGSIZE && w < MAXVPN
      requires 2 <= perm < 1024 && perm % 2 == 0 && Vacant(s0.m, root, v, |us| + 1)
      requires Filled(s0, Space(mem, free, pos), root, v, us)
      requires forall p :: p in s0.f ==> lo <= p < hi
      requires |us| < n && Labels(s0.pos, pos, v, n) && flags == perm + 1 && Zeroed(us, flags)
      modifies this, kmem
      ensures Ready() && Owns(root, pos') && Labels(s0.pos, pos', v, n)
      ensures if added then
                Filled(s0, Space(mem, free, pos'), root, v, us + [u]) && Zeroed(us + [u], flags)
              else
                && SameMap(s0.m, mem, root) && Grown(s0.m, s0.f, s0.pos, mem, free, pos') && |free| <= |us| + 1
                && TooFew(free, s0.pos, pos', v, n)
    {
      added, u, pos' := AddNext(root, a, ZeroPage(), perm, s0, v, us, w, pos);
      LabelsTrans(s0.pos, pos, pos', v, n, w, 1);
      if !added {
        ghost var f0 := free;
        Undo(root, a, start, s0, v, us, pos');
        RanOut(mem, root, s0.pos, pos', v, n, us, w, f0, u.pa, free);
      } else {
        ZeroedNext(us, u, flags);
      }
    }

    /** uvmalloc's loop, from the page-aligned address start. It never gets further than memory lasts. */
    method AllocFrom(root: nat, start: nat, newsz: nat, xperm: nat, ghost v: nat, ghost n: nat,
                     ghost pos: map<nat, Pos>)
      returns (ok: bool, ghost us: seq<UPage>, ghost pos': map<nat, Pos>)
      requires Ready() && Owns(root, pos) && start == v * PGSIZE && xperm < 16 && xperm % 4 == 0
      requires forall w {:trigger w * PGSIZE} :: v <= w ==> (w * PGSIZE < newsz <==> w < v + n)
      requires v + Least(n, |free| + 1) <= MAXVPN && Vacant(mem, root, v, Least(n, |free| + 1))
      modifies this, kmem
      ensures Ready() && Owns(root, pos')
      ensures if ok then
                && Filled(Space(old(mem), old(free), pos), Space(mem, free, pos'), root, v, us)
                && |us| == n && Zeroed(us, 19 + xperm)
              else
                && SameMap(old(mem), mem, root) && Grown(old(mem), old(free), pos, mem, free, pos') && |free| <= n
                && TooFew(free, pos, pos', v, n)
      ensures Labels(pos, pos', v, n)
    {
      LabelsSame(pos, v, n);
      pos', us := pos, [];
      var a := start;
      var perm := 18 + xperm;
      EvenPerm(xperm);
      ghost var w, flags := v, 19 + xperm;
      ghost var s0 := Space(mem, free, pos);
      assert Filled(s0, s0, root, v, us) by { assert PaSet(us) == {}; }
      while a < newsz
        invariant |us| <= n && w == v + |us| && a == w * PGSIZE && Ready() && Owns(root, pos')
        invariant Zeroed(us, flags)
        invariant Filled(s0, Space(mem, free, pos'), root, v, us) && Labels(pos, pos', v, n)
        decreases n - |us|
      {
        FilledSize(s0, Space(mem, free, pos'), root, v, us);
        var added;
        ghost var u;
        added, u, pos' := AddOrUndo(root, a, start, perm, s0, v, us, w, n, flags, pos');
        if !added {
          return false, us, pos';
        }
        us, w := us + [u], w + 1;
        a := a + PGSIZE;
      }
      return true, us, pos';
    }

    /**
      Returns newsz, or 0 with the old map restored, no page kept but tables of the tree, and at most as many pages
      left as were asked for. The new size may be anything: the loop ends when memory does.
     */
    method UvmAlloc(root: nat, oldsz: nat, newsz: nat, xperm: nat, ghost pos: map<nat, Pos>)
      returns (r: nat, ghost ok: bool, ghost us: seq<UPage>, ghost pos': map<nat, Pos>, ghost v: nat, ghost n: nat)
      requires Ready() && Owns(root, pos) && xperm < 16 && xperm % 4 == 0
      requires oldsz <= newsz ==>
                 var v := PageCount(oldsz);
                 var n := Least(PageCount(newsz) - v, |free| + 1);
                 v + n <= MAXVPN && Vacant(mem, root, v, n)
      modifies this, kmem
      ensures Ready() && Owns(root, pos')
      ensures newsz < oldsz ==> ok && r == oldsz && pos' == pos && mem == old(mem) && free == old(free)
      ensures oldsz <= newsz && ok ==>
                && r == newsz && PageCount(newsz) == PageCount(oldsz) + |us| && Zeroed(us, 19 + xperm)
                && Filled(Space(old(mem), old(free), pos), Space(mem, free, pos'), root, PageCount(oldsz), us)
      ensures oldsz <= newsz && !ok ==>
                && r == 0 && SameMap(old(mem), mem, root) && Grown(old(mem), old(free), pos, mem, free, pos')
                && |free| <= PageCount(newsz) - PageCount(oldsz)
      ensures v == PageCount(oldsz) && (oldsz <= newsz ==> v + n == PageCount(newsz) && Labels(pos, pos', v, n))
      ensures oldsz <= newsz && !ok ==> TooFew(free, pos, pos', v, n)
    {
      v := PageCount(oldsz);
      if newsz < oldsz {
        return oldsz, true, [], pos, v, 0;
      }
      PageDifference(newsz, oldsz);
      n := PageCount(newsz) - v;
      forall w {:trigger w * PGSIZE} | PageCount(oldsz) <= w ensures w * PGSIZE < newsz <==> w < PageCount(newsz) {
        BelowSize(w, newsz);
      }
      var done;
      done, us, pos' := AllocFrom(root, PgRoundUp(oldsz), newsz, xperm, v, n, pos);
      ok := done;
      r := if done then newsz else 0;
    }

    /** The contents and flags that uvmcopy reads for one page of the parent. */
    method ReadPage(root: nat, a: nat, ghost w: nat, ghost ps: seq<UPage>, ghost pos: map<nat, Pos>)
      returns (d: seq<nat>, flags: nat)
      requires Ready() && Owns(root, pos) && a == w * PGSIZE && w < |ps| <= MAXVPN && HoldsAll(mem, root, 0, ps)
      modifies this, kmem
      ensures Ready() && mem == old(mem) && free == old(free)
      ensures d == ps[w].bytes && flags == ps[w].flags && 2 <= flags < 1024 && flags % 2 == 1
    {
      HoldsAt(mem, root, 0, ps, w, w);
      LeafFlags(mem, root, pos, w);
      var slot, pte := ReadLeaf(root, a, w, pos);
      FlagsOdd(pte);
      flags := Flags(pte);
      d := mem[Pte2Pa(pte)].bytes;
    }

    /** uvmcopy's error exit: the child's pages so far are unmapped and freed. */
    method Abandon(child: nat, i: nat, ghost s0: Space, ghost us: seq<UPage>, ghost pos: map<nat, Pos>)
      requires Ready() && Owns(child, pos) && i == |us| * PGSIZE && |us| <= MAXVPN
      requires Filled(s0, Space(mem, free, pos), child, 0, us) && Vacant(s0.m, child, 0, |us|)
      requires forall p :: p in s0.f ==> lo <= p < hi
      modifies this, kmem
      ensures Ready() && Owns(child, pos)
      ensures SameMap(s0.m, mem, child) && Grown(s0.m, s0.f, s0.pos, mem, free, pos) && free == old(free) + PaSet(us)
    {
      ghost var s := Space(mem, free, pos);
      HoldsValid(mem, child, 0, us);
      PageNumber(i, |us|);
      UvmUnmap(child, 0, i / PGSIZE, true, 0, us, pos);
      FilledUndone(s0, s, Space(mem, free, pos), child, 0, us);
    }

    /** ReadPage while the child is being filled beside the parent. */
    method ReadBeside(parent: nat, ghost child: nat, i: nat, ghost s0: Space, ghost us: seq<UPage>,
                      ghost ps: seq<UPage>,
                      ghost ppos: map<nat, Pos>, ghost pos: map<nat, Pos>)
      returns (d: seq<nat>, flags: nat)
      requires Ready() && i == |us| * PGSIZE && |us| < |ps| && Filled(s0, Space(mem, free, pos), child, 0, us)
      requires Beside(s0, parent, ppos, ps) && forall t :: t in ppos ==> lo <= t < hi
      modifies this, kmem
      ensures Ready() && mem == old(mem) && free == old(free)
      ensures d == ps[|us|].bytes && flags == ps[|us|].flags && 2 <= flags < 1024 && flags % 2 == 1
    {
      ParentKept(s0, Space(mem, free, pos), parent, ppos, child, 0, us, ps);
      d, flags := ReadPage(parent, i, |us|, ps, ppos);
    }

    /** The rest of a turn of uvmcopy's loop. */
    method AddOrAbandon(child: nat, i: nat, d: seq<nat>, flags: nat, ghost s0: Space, ghost us: seq<UPage>,
                        ghost n: nat, ghost pos: map<nat, Pos>)
      returns (added: bool, ghost u: UPage, ghost pos': map<nat, Pos>)
      requires Ready() && Owns(child, pos) && i == |us| * PGSIZE && |us| < MAXVPN && 2 <= flags < 1024
      requires Filled(s0, Space(mem, free, pos), child, 0, us) && Vacant(s0.m, child, 0, |us| + 1)
      requires |us| < n && Labels(s0.pos, pos, 0, n)
      requires forall p :: p in s0.f ==> lo <= p < hi
      modifies this, kmem
      ensures Ready() && Owns(child, pos')
      ensures if added then
                Filled(s0, Space(mem, free, pos'), child, 0, us + [u]) && u.flags == flags + 1 - flags % 2
                && u.bytes == d
              else
                && SameMap(s0.m, mem, child) && Grown(s0.m, s0.f, s0.pos, mem, free, pos') && |free| <= |us| + 1
                && TooFew(free, s0.pos, pos', 0, n)
      ensures Labels(s0.pos, pos', 0, n)
    {
      added, u, pos' := AddNext(child, i, d, flags, s0, 0, us, |us|, pos);
      LabelsTrans(s0.pos, pos, pos', 0, n, |us|, 1);
      if !added {
        ghost var f0 := free;
        Abandon(child, i, s0, us, pos');
        RanOut(mem, child, s0.pos, pos', 0, n, us, |us|, f0, u.pa, free);
      }
    }

    /** uvmcopy's loop, as it fills the child. */
    method CopyPages(parent: nat, child: nat, sz: nat, ghost ps: seq<UPage>, ghost ppos: map<nat, Pos>,
                     ghost pos: map<nat, Pos>)
      returns (ok: bool, ghost us: seq<UPage>, ghost pos': map<nat, Pos>)
      requires Ready() && Owns(child, pos) && |ps| == PageCount(sz) && Vacant(mem, child, 0, |ps|)
      requires Beside(Space(mem, free, pos), parent, ppos, ps) && forall t :: t in ppos ==> lo <= t < hi
      modifies this, kmem
      ensures Ready() && Owns(child, pos')
      ensures if ok then
                && Filled(Space(old(mem), old(free), pos), Space(mem, free, pos'), child, 0, us)
                && |us| == |ps| && CopyOf(us, ps)
              else
                && SameMap(old(mem), mem, child) && Grown(old(mem), old(free), pos, mem, free, pos') && |free| <= |ps|
                && TooFew(free, pos, pos', 0, |ps|)
      ensures Labels(pos, pos', 0, |ps|)
    {
      ghost var s0 := Space(mem, free, pos);
      pos', us := pos, [];
      assert Filled(s0, s0, child, 0, us) by { assert PaSet(us) == {}; }
      LabelsSame(pos, 0, |ps|);
      var i := 0;
      while i < sz
        invariant i == |us| * PGSIZE && Ready() && Owns(child, pos')
        invariant CopyOf(us, ps) && Labels(pos, pos', 0, |ps|)
        invariant Filled(s0, Space(mem, free, pos'), child, 0, us)
        decreases |ps| - |us|
      {
        BelowSize(|us|, sz);
        var d, flags := ReadBeside(parent, child, i, s0, us, ps, ppos, pos');
        var added;
        ghost var u;
        added, u, pos' := AddOrAbandon(child, i, d, flags, s0, us, |ps|, pos');
        if !added {
          return false, us, pos';
        }
        CopyNext(us, ps, u);
        us := us + [u];
        i := i + PGSIZE;
      }
      BelowSize(|us|, sz);
      ok := true;
    }

    /**
      Copies the first pages of one tree into another: the same flags and contents on fresh pages.
      On failure the child's map is as it was and at most as many pages are left as were to be copied.
      The parent's tree and pages stay as they are either way.
     */
    method UvmCopy(parent: nat, child: nat, sz: nat, ghost ps: seq<UPage>, ghost ppos: map<nat, Pos>,
                   ghost pos: map<nat, Pos>)
      returns (ok: bool, ghost us: seq<UPage>, ghost pos': map<nat, Pos>)
      requires Ready() && Owns(parent, ppos) && Owns(child, pos) && ppos.Keys !! pos.Keys
      requires |ps| == PageCount(sz) <= MAXVPN && HoldsAll(mem, parent, 0, ps) && PaSet(ps) !! free
      requires PaSet(ps) !! pos.Keys
      requires Vacant(mem, child, 0, |ps|)
      modifies this, kmem
      ensures Ready() && Owns(child, pos') && IsTree(mem, parent, ppos) && SameMap(old(mem), mem, parent)
      ensures HoldsAll(mem, parent, 0, ps)
      ensures if ok then
                && Filled(Space(old(mem), old(free), pos), Space(mem, free, pos'), child, 0, us)
                && |us| == |ps| && CopyOf(us, ps)
              else
                && SameMap(old(mem), mem, child) && Grown(old(mem), old(free), pos, mem, free, pos') && |free| <= |ps|
                && TooFew(free, pos, pos', 0, |ps|)
      ensures Labels(pos, pos', 0, |ps|)
    {
      ghost var m0, f0 := mem, free;
      ok, us, pos' := CopyPages(parent, child, sz, ps, ppos, pos);
      ParentFrame(m0, mem, parent, ppos, ps, pos.Keys + f0);
    }

    /** uvmcreate: an empty tree on one zeroed page, or 0. */
    method UvmCreate() returns (root: nat, ghost pos: map<nat, Pos>)
      requires Ready()
      modifies this, kmem
      ensures Ready()
      ensures root == 0 <==> old(free) == {}
      ensures root == 0 ==> free == old(free) && mem == old(mem)
      ensures root != 0 ==> pos == map[root := Root] && Owns(root, pos) && free + pos.Keys == old(free)
      ensures root != 0 ==> Untouched(old(mem), mem, old(free))
      ensures root != 0 ==> forall v :: 0 <= v < MAXVPN ==> Lookup(mem, root, v) == 0
    {
      root := Kalloc();
      pos := map[root := Root];
      if root != 0 {
        mem := mem[root := ZeroTable()];
        NewTree(mem, root);
      }
    }

    /**
      Frees every table of the subtree below t, and nothing else. The precondition says that its pages are
      still those of a tree m0 that has no leaf; "freewalk: leaf" is then out of reach.
     */
    method Freewalk(t: nat, ghost root: nat, ghost m0: Memory, ghost pos: map<nat, Pos>)
      requires Ready() && IsTree(m0, root, pos) && NoLeaf(m0, pos) && t in pos
      requires forall u :: u in Sub(pos, pos[t]) ==>
                   u in mem && u in m0 && mem[u] == m0[u] && u !in free && lo <= u < hi
      modifies this, kmem
      ensures Ready() && free == old(free) + Sub(pos, pos[t]) && Untouched(old(mem), mem, Sub(pos, pos[t]))
      decreases if pos[t].Root? then 2 else if pos[t].Mid? then 1 else 0, 0
    {
      ghost var p := pos[t];
      ghost var whole := Sub(pos, p);
      SubWhole(m0, root, pos, t);
      assert NodeOk(m0, pos, t);
      NothingYet(pos, p);
      var i := 0;
      while i < ENTRIES
        invariant 0 <= i <= ENTRIES && Ready()
        invariant free == old(free) + SubUpTo(pos, p, i) && Untouched(old(mem), mem, SubUpTo(pos, p, i) + {t})
        invariant t in mem && mem[t].Table? && |mem[t].ptes| == ENTRIES && t !in free
        invariant forall j :: i <= j < ENTRIES ==> mem[t].ptes[j] == m0[t].ptes[j]
      {
        var pte := mem[t].ptes[i];
        EntryKinds(m0, root, pos, t, i);
        if IsValid(pte) && !Readable(pte) && !Writable(pte) && !Executable(pte) {
          SubNext(pos, p, i);
          SubBelow(pos, p, i);
          FreeChild(t, i, root, m0, pos);
        } else if IsValid(pte) {
          assert false;
        } else {
          SubSkip(m0, root, pos, t, i);
        }
        i := i + 1;
      }
      Kfree(t);
    }

    /** A turn of freewalk's loop whose entry points to a table. */
    method FreeChild(t: nat, i: nat, ghost root: nat, ghost m0: Memory, ghost pos: map<nat, Pos>)
      requires Ready() && IsTree(m0, root, pos) && NoLeaf(m0, pos) && t in pos && !pos[t].Low? && i < ENTRIES
      requires t in mem && mem[t].Table? && |mem[t].ptes| == ENTRIES && t !in free
      requires var c := Pte2Pa(mem[t].ptes[i]); c in pos && pos[c] == ChildPlace(pos[t], i)
      requires forall u :: u in Sub(pos, ChildPlace(pos[t], i)) ==>
                 u in mem && u in m0 && mem[u] == m0[u] && u !in free && lo <= u < hi
      modifies this, kmem
      ensures Ready() && free == old(free) + Sub(pos, ChildPlace(pos[t], i))
      ensures Untouched(old(mem), mem, Sub(pos, ChildPlace(pos[t], i)) + {t})
      ensures t in mem && mem[t] == Table(old(mem[t].ptes)[i := 0])
      decreases if pos[t].Root? then 1 else 0, 1
    {
      SubBelow(pos, pos[t], i);
      Freewalk(Pte2Pa(mem[t].ptes[i]), root, m0, pos);
      mem := SetEntry(mem, t, i, 0);
    }

    /** Frees the user pages us and every table of a tree that maps nothing else. */
    method UvmFree(root: nat, sz: nat, ghost us: seq<UPage>, ghost pos: map<nat, Pos>)
      requires Ready() && Owns(root, pos) && |us| == PageCount(sz) <= MAXVPN && Freeable(root, 0, us, pos)
      requires Vacant(mem, root, |us|, MAXVPN - |us|)
      modifies this, kmem
      ensures Ready() && free == old(free) + PaSet(us) + pos.Keys
      ensures Untouched(old(mem), mem, pos.Keys + PaSet(us))
    {
      PageDifference(sz, 0);
      if sz > 0 {
        HoldsValid(mem, root, 0, us);
        UvmUnmap(root, 0, PgRoundUp(sz) / PGSIZE, true, 0, us, pos);
      } else {
        assert us == [] && PaSet(us) == {};
      }
      AllGone(old(mem), mem, root, |us|);
      EmptyNoLeaf(mem, root, pos);
      assert Sub(pos, pos[root]) == pos.Keys;
      forall u | u in pos ensures u in mem { assert NodeOk(mem, pos, u); }
      Freewalk(root, root, mem, pos);
    }

    /**
      proc_pagetable: trampoline and trapframe mapped in a new tree of three tables, if there are three free pages;
      otherwise every page is given back.
     */
    method ProcPagetable(trampoline: nat, trapframe: nat) returns (root: nat, ghost pos: map<nat, Pos>)
      requires Ready() && trampoline % PGSIZE == 0 && trapframe % PGSIZE == 0
      modifies this, kmem
      ensures Ready()
      ensures Untouched(old(mem), mem, old(free))
      ensures root == 0 <==> Fewer(old(free), 3)
      ensures root == 0 ==> free == old(free)
      ensures root != 0 ==>
                Owns(root, pos) && free + pos.Keys == old(free) && OnlyKernelPages(mem, root, 0, trampoline, trapframe)
      ensures root != 0 ==> Labels(map[root := Root], pos, MAXVPN - 2, 2)
    {
      ghost var f0 := free;
      NoneFree(3);
      root, pos := UvmCreate();
      if root != 0 {
        root, pos := MapTrampoline(root, trampoline, trapframe, f0, pos);
      }
    }

    /** The first mapping, which undoes the tree when it fails. */
    method MapTrampoline(root: nat, trampoline: nat, trapframe: nat, ghost f0: set<nat>,
                         ghost pos: map<nat, Pos>)
      returns (r: nat, ghost pos': map<nat, Pos>)
      requires Ready() && Owns(root, pos) && trapframe % PGSIZE == 0 && trampoline % PGSIZE == 0
      requires pos == map[root := Root] && f0 == free + pos.Keys
      requires forall v :: 0 <= v < MAXVPN ==> Lookup(mem, root, v) == 0
      modifies this, kmem
      ensures Ready() && Untouched(old(mem), mem, f0)
      ensures r == 0 <==> Fewer(f0, 3)
      ensures r == 0 ==> free == f0
      ensures r != 0 ==> Owns(r, pos') && free + pos'.Keys == f0
      ensures r != 0 ==> OnlyKernelPages(mem, r, 0, trampoline, trapframe) && r == root
      ensures r != 0 ==> Labels(map[root := Root], pos', MAXVPN - 2, 2)
    {
      var ok;
      ghost var done;
      ok, done, pos' := MapPages(root, (MAXVPN - 1) * PGSIZE, PGSIZE, trampoline, 10, MAXVPN - 1, 1, pos);
      LabelsWider(pos, pos', MAXVPN - 2, 2, MAXVPN - 1, 1);
      if !ok {
        assert done == 0;
        assert f0 == pos'.Keys;
        FewTables(mem, root, pos, pos', MAXVPN - 1 + done);
        FreeEmpty(root, pos');
        return 0, pos';
      }
      r, pos' := MapTrapframe(root, trampoline, trapframe, f0, pos, pos');
    }

    /** The second mapping, which undoes the first when it fails. */
    method MapTrapframe(root: nat, ghost trampoline: nat, trapframe: nat, ghost f0: set<nat>, ghost pos0: map<nat, Pos>,
                        ghost pos: map<nat, Pos>)
      returns (r: nat, ghost pos': map<nat, Pos>)
      requires Ready() && Owns(root, pos) && trapframe % PGSIZE == 0 && trampoline % PGSIZE == 0
      requires forall v :: 0 <= v < MAXVPN ==>
                   Lookup(mem, root, v) == if v == MAXVPN - 1 then LeafPte(trampoline, 10) else 0
      requires f0 == free + pos.Keys && pos0 == map[root := Root] && Labels(pos0, pos, MAXVPN - 2, 2)
      modifies this, kmem
      ensures Ready() && Untouched(old(mem), mem, f0)
      ensures r == 0 <==> Fewer(f0, 3)
      ensures r == 0 ==> free == f0
      ensures r != 0 ==> Owns(r, pos') && free + pos'.Keys == f0
      ensures r != 0 ==> OnlyKernelPages(mem, r, 0, trampoline, trapframe) && r == root
      ensures r != 0 ==> Labels(map[root := Root], pos', MAXVPN - 2, 2)
    {
      var ok;
      ghost var done;
      ok, done, pos' := MapPages(root, (MAXVPN - 2) * PGSIZE, PGSIZE, trapframe, 6, MAXVPN - 2, 1, pos);
      LabelsTrans(pos0, pos, pos', MAXVPN - 2, 2, MAXVPN - 2, 1);
      if ok {
        r := root;
        TablesComplete(mem, root, pos0, pos', free, trampoline, trapframe);
      } else {
        assert done == 0;
        assert f0 == pos'.Keys;
        FewTables(mem, root, pos0, pos', MAXVPN - 2 + done);
        UndoTrampoline(root, trampoline, pos');
        r := 0;
      }
    }

    method UndoTrampoline(root: nat, ghost trampoline: nat, ghost pos: map<nat, Pos>)
      requires Ready() && Owns(root, pos) && trampoline % PGSIZE == 0
      requires forall v :: 0 <= v < MAXVPN ==>
                   Lookup(mem, root, v) == if v == MAXVPN - 1 then LeafPte(trampoline, 10) else 0
      modifies this, kmem
      ensures Ready() && free == old(free) + pos.Keys && Untouched(old(mem), mem, pos.Keys)
    {
      LeafPteFields(trampoline, 10);
      UvmUnmap(root, (MAXVPN - 1) * PGSIZE, 1, false, MAXVPN - 1, [], pos);
      FreeEmpty(root, pos);
    }

    /** uvmfree of a tree that maps nothing. */
    method FreeEmpty(root: nat, ghost pos: map<nat, Pos>)
      requires Ready() && Owns(root, pos) && forall v :: 0 <= v < MAXVPN ==> Lookup(mem, root, v) == 0
      modifies this, kmem
      ensures Ready() && free == old(free) + pos.Keys && Untouched(old(mem), mem, pos.Keys)
    {
      NoUserPages(mem, root);
      UvmFree(root, 0, [], pos);
    }

    /** proc_freepagetable. */
    method ProcFreePagetable(root: nat, sz: nat, ghost trampoline: nat, ghost trapframe: nat, ghost us: seq<UPage>,
                             ghost pos: map<nat, Pos>)
      requires Ready() && Owns(root, pos) && |us| == PageCount(sz) <= MAXVPN - 2 && Freeable(root, 0, us, pos)
      requires OnlyKernelPages(mem, root, |us|, trampoline, trapframe)
      modifies this, kmem
      ensures Ready() && free == old(free) + PaSet(us) + pos.Keys
      ensures Untouched(old(mem), mem, pos.Keys + PaSet(us))
    {
      UnmapKernelPages(root, trampoline, trapframe, us, pos);
      UvmFree(root, sz, us, pos);
    }

    /** The trampoline and the trapframe leave the tree; neither page is freed. */
    method UnmapKernelPages(root: nat, ghost trampoline: nat, ghost trapframe: nat, ghost us: seq<UPage>,
                            ghost pos: map<nat, Pos>)
      requires Ready() && Owns(root, pos) && |us| <= MAXVPN - 2 && HoldsAll(mem, root, 0, us) && PaSet(us) !! pos.Keys
      requires OnlyKernelPages(mem, root, |us|, trampoline, trapframe)
      modifies this, kmem
      ensures Ready() && Owns(root, pos) && HoldsAll(mem, root, 0, us) && Vacant(mem, root, |us|, MAXVPN - |us|)
      ensures free == old(free) && Untouched(old(mem), mem, pos.Keys)
    {
      ghost var m0 := mem;
      KernelPagesValid(mem, root, |us|, trampoline, trapframe);
      UvmUnmap(root, (MAXVPN - 1) * PGSIZE, 1, false, MAXVPN - 1, [], pos);
      ghost var m1 := mem;
      assert PaSet([]) == {};
      UvmUnmap(root, (MAXVPN - 2) * PGSIZE, 1, false, MAXVPN - 2, [], pos);
      KernelPagesGone(m0, m1, mem, root, us, pos.Keys, trampoline, trapframe);
    }

    /** The memory side of freeproc: trapframe page, user pages and tables become free, and no other page is written. */
    method FreeProc(root: nat, sz: nat, ghost trampoline: nat, trapframe: nat, ghost us: seq<UPage>,
                    ghost pos: map<nat, Pos>)
      requires Ready() && Owns(root, pos) && |us| == PageCount(sz) <= MAXVPN - 2 && Freeable(root, 0, us, pos)
      requires OnlyKernelPages(mem, root, |us|, trampoline, trapframe)
      requires trapframe % PGSIZE == 0 && lo <= trapframe < hi && trapframe in mem
      requires trapframe !in free + pos.Keys + PaSet(us)
      modifies this, kmem
      ensures Ready() && free == old(free) + (pos.Keys + PaSet(us) + {trapframe})
      ensures Untouched(old(mem), mem, pos.Keys + PaSet(us) + {trapframe})
    {
      ghost var m0 := mem;
      Kfree(trapframe);
      ParentFrame(m0, mem, root, pos, us, {trapframe});
      ProcFreePagetable(root, sz, trampoline, trapframe, us, pos);
    }

    /** The pages of allocproc: a trapframe and a page table if there are four free pages, or none at all. */
    method AllocProcPages(trampoline: nat) returns (trapframe: nat, root: nat, ghost pos: map<nat, Pos>)
      requires Ready() && trampoline % PGSIZE == 0
      modifies this, kmem
      ensures Ready() && Untouched(old(mem), mem, old(free))
      ensures root == 0 <==> Fewer(old(free), 4)
      ensures root == 0 ==> free == old(free)
      ensures root != 0 ==> Labels(map[root := Root], pos, MAXVPN - 2, 2)
      ensures root != 0 ==> && Owns(root, pos) && OnlyKernelPages(mem, root, 0, trampoline, trapframe)
                            && trapframe in old(free) && trapframe !in free + pos.Keys
                            && free + pos.Keys == old(free) - {trapframe}
                            && old(free) == free + pos.Keys + {trapframe}
    {
      root, pos := 0, map[];
      NoneFree(4);
      trapframe := Kalloc();
      if trapframe == 0 {
        return;
      }
      OneMoreFree(old(free), trapframe);
      root, pos := ProcPagetable(trampoline, trapframe);
      if root == 0 {
        Kfree(trapframe);
      }
    }

    /**
      The memory side of fork: trapframe page, page table, copy of the parent's pages. It succeeds exactly if there
      are as many free pages as these take. On any failure the set
      of free pages is what it was and no page in use was written. On success the child has the parent's
      flags and contents on its own pages, and the pages that left the free set are exactly the
      trapframe, the child's tables and its user pages.
     */
    method ForkMemory(parent: nat, sz: nat, trampoline: nat, ghost ps: seq<UPage>, ghost ppos: map<nat, Pos>)
      returns (ok: bool, trapframe: nat, child: nat, ghost us: seq<UPage>, ghost pos: map<nat, Pos>)
      requires Ready() && Owns(parent, ppos) && trampoline % PGSIZE == 0
      requires |ps| == PageCount(sz) <= MAXVPN - 2 && HoldsAll(mem, parent, 0, ps) && PaSet(ps) !! free
      modifies this, kmem
      ensures Ready() && Untouched(old(mem), mem, old(free))
      ensures IsTree(mem, parent, ppos) && SameMap(old(mem), mem, parent) && HoldsAll(mem, parent, 0, ps)
      ensures !ok <==> Fewer(old(free), ForkNeeds(|ps|))
      ensures !ok ==> free == old(free)
      ensures ok ==> && Owns(child, pos) && HoldsAll(mem, child, 0, us) && |us| == |ps| && CopyOf(us, ps)
                     && OnlyKernelPages(mem, child, |us|, trampoline, trapframe)
                     && trapframe in old(free) && Parted(old(free), free, {trapframe}, pos.Keys, PaSet(us))
    {
      ghost var m0, f0 := mem, free;
      us, ok := [], false;
      ForkNeedsFew(|ps|);
      trapframe, child, pos := AllocProcPages(trampoline);
      ParentFrame(m0, mem, parent, ppos, ps, f0);
      if child == 0 {
        FewerMore(f0, 4, ForkNeeds(|ps|));
      } else {
        ok, us, pos := ForkCopy(parent, child, sz, trampoline, trapframe, ps, ppos, f0, pos);
        ParentFrame(m0, mem, parent, ppos, ps, f0);
      }
    }

    /** uvmcopy into the child allocproc made, and freeproc on it when that fails; the child's size is then still 0. */
    method ForkCopy(parent: nat, child: nat, sz: nat, ghost trampoline: nat, trapframe: nat, ghost ps: seq<UPage>,
                    ghost ppos: map<nat, Pos>, ghost f0: set<nat>, ghost pos: map<nat, Pos>)
      returns (ok: bool, ghost us: seq<UPage>, ghost pos': map<nat, Pos>)
      requires Ready() && Owns(parent, ppos) && Owns(child, pos) && ppos.Keys !! pos.Keys
      requires |ps| == PageCount(sz) <= MAXVPN - 2 && HoldsAll(mem, parent, 0, ps) && PaSet(ps) !! free
      requires PaSet(ps) !! pos.Keys
      requires OnlyKernelPages(mem, child, 0, trampoline, trapframe)
      requires trapframe % PGSIZE == 0 && lo <= trapframe < hi && trapframe in mem && trapframe !in free + pos.Keys
      requires Labels(map[child := Root], pos, MAXVPN - 2, 2) && f0 == free + pos.Keys + {trapframe}
      modifies this, kmem
      ensures Ready() && Untouched(old(mem), mem, f0)
      ensures !ok <==> Fewer(f0, ForkNeeds(|ps|))
      ensures !ok ==> free == f0
      ensures ok ==> && Owns(child, pos') && HoldsAll(mem, child, 0, us) && |us| == |ps| && CopyOf(us, ps)
                     && OnlyKernelPages(mem, child, |us|, trampoline, trapframe)
                     && Parted(f0, free, {trapframe}, pos'.Keys, PaSet(us))
    {
      ghost var s1 := Space(mem, free, pos);
      KernelPagesOnly(mem, child, |ps|, trampoline, trapframe);
      ok, us, pos' := UvmCopy(parent, child, sz, ps, ppos, pos);
      if ok {
        ForkDone(f0, s1, Space(mem, free, pos'), child, us, trampoline, trapframe);
        ForkTook(f0, s1, Space(mem, free, pos'), child, us, trampoline, trapframe);
      } else {
        ForkLacked(f0, s1, Space(mem, free, pos'), child, |ps|, trampoline, trapframe);
        ForkFailed(child, trampoline, trapframe, s1, pos');
      }
    }

    /** freeproc on the half-made child. */
    method ForkFailed(child: nat, ghost trampoline: nat, trapframe: nat, ghost s1: Space, ghost pos: map<nat, Pos>)
      requires Ready() && Owns(child, pos) && Grown(s1.m, s1.f, s1.pos, mem, free, pos)
      requires SameMap(s1.m, mem, child) && OnlyKernelPages(s1.m, child, 0, trampoline, trapframe)
      requires trapframe % PGSIZE == 0 && lo <= trapframe < hi && trapframe in mem && trapframe !in s1.f + s1.pos.Keys
      modifies this, kmem
      ensures Ready() && free == s1.f + s1.pos.Keys + {trapframe}
      ensures Untouched(s1.m, mem, s1.f + s1.pos.Keys + {trapframe})
    {
      NoUserPages(mem, child);
      FreeProc(child, 0, trampoline, trapframe, [], pos);
    }

    /** uvmclear: the page stays mapped, without user access. */
    method UvmClear(root: nat, va: nat, ghost v: nat, ghost pos: map<nat, Pos>)
      requires Ready() && Owns(root, pos) && va == v * PGSIZE && v < MAXVPN
      requires IsValid(Lookup(mem, root, v)) && Readable(Lookup(mem, root, v))
      modifies this, kmem
      ensures Ready() && Owns(root, pos) && free == old(free) && Untouched(old(mem), mem, pos.Keys)
      ensures SetsPage(old(mem), mem, root, v, WithoutUser(old(Lookup(mem, root, v))))
    {
      var slot, pte := ReadLeaf(root, va, v, pos);
      WithoutUserFields(pte);
      SetLeaf(root, slot, v, WithoutUser(pte), pos);
    }

    /** memmove into a page that the user may write. */
    method StoreChunk(root: nat, ghost va: nat, ghost v: nat, o: nat, c: seq<nat>, pa: nat, ghost pos: map<nat, Pos>)
      requires Ready() && Owns(root, pos) && UserBytes(mem, root) && va == v * PGSIZE + o && o + |c| <= PGSIZE
      requires o < PGSIZE && CanStore(mem, root, v) && UserPage(mem, root, v) && pa == Pte2Pa(Lookup(mem, root, v))
      modifies this
      ensures Ready() && Owns(root, pos) && UserBytes(mem, root) && SameMap(old(mem), mem, root) && free == old(free)
      ensures mem == StoreBytes(old(mem), root, va, c)
    {
      ChunkStores(mem, root, v, o, c);
      StoreKeepsTables(mem, root, va, c);
      mem := mem[pa := Bytes(Splice(mem[pa].bytes, o, c))];
      StoreKeepsUser(old(mem), mem, root, pos);
    }

    /** One page of copyout: the bytes c, all within one page. */
    method CopyOutPage(root: nat, va: nat, ghost v: nat, o: nat, c: seq<nat>, ghost pos: map<nat, Pos>)
      returns (ok: bool)
      requires Ready() && Owns(root, pos) && UserBytes(mem, root) && va == v * PGSIZE + o && o + |c| <= PGSIZE
      requires o < PGSIZE
      modifies this, kmem
      ensures Ready() && Owns(root, pos) && UserBytes(mem, root) && SameMap(old(mem), mem, root) && free == old(free)
      ensures ok <==> CanStore(old(mem), root, v)
      ensures mem == if ok then StoreBytes(old(mem), root, va, c) else old(mem)
    {
      var va0 := va - o;
      if va0 >= MAXVA {
        return false;
      }
      var slot, pte := ReadLeaf(root, va0, v, pos);
      if slot.None? || !IsValid(pte) || !User(pte) || !Writable(pte) {
        return false;
      }
      assert UserPage(mem, root, v);
      StoreChunk(root, va, v, o, c, Pte2Pa(pte), pos);
      ok := true;
    }

    /** One turn of copyout's loop, n bytes long. */
    method CopyOutTurn(root: nat, va: nat, c: seq<nat>, ghost dstva: nat, ghost src: seq<nat>, ghost done: nat,
                       ghost m0: Memory,
                       ghost pos: map<nat, Pos>)
      returns (ok: bool)
      requires Ready() && Owns(root, pos) && UserBytes(mem, root) && SameMap(m0, mem, root)
      requires Stored(m0, mem, root, dstva, src, done) && va == dstva + done && va % PGSIZE + |c| <= PGSIZE
      requires done + |c| <= |src| && c == src[done..done + |c|]
      modifies this, kmem
      ensures Ready() && Owns(root, pos) && UserBytes(mem, root) && SameMap(m0, mem, root) && free == old(free)
      ensures if ok then Stored(m0, mem, root, dstva, src, done + |c|)
              else mem == old(mem) && !CanStore(m0, root, PageOf(va))
    {
      var v, o := va / PGSIZE, va % PGSIZE;
      SamePage(dstva + done, v, o, |c|);
      ghost var m := mem;
      SameStore(m0, mem, root, v);
      ok := CopyOutPage(root, va, v, o, c, pos);
      if ok {
        assert mem == StoreBytes(m, root, dstva + done, src[done..done + |c|]);
        StoredMore(m0, m, mem, root, dstva, src, done, |c|, v);
      }
    }

    /**
      Stores src at dstva as byte-by-byte access through the page table would. It stops at the first byte
      whose page is not a valid, writable user page, and then has stored exactly the bytes before it.
     */
    method CopyOut(root: nat, dstva: nat, src: seq<nat>, ghost pos: map<nat, Pos>) returns (ok: bool, ghost k: nat)
      requires Ready() && Owns(root, pos) && UserBytes(mem, root)
      modifies this, kmem
      ensures Ready() && Owns(root, pos) && SameMap(old(mem), mem, root) && free == old(free)
      ensures Stored(old(mem), mem, root, dstva, src, k)
      ensures if ok then k == |src| else k < |src| && !CanStore(old(mem), root, PageOf(dstva + k))
    {
      var va, len, done := dstva, |src|, 0;
      ghost var m0 := mem;
      while len > 0
        invariant 0 <= done && 0 <= len && done + len == |src| && (len > 0 ==> va == dstva + done)
        invariant Ready() && Owns(root, pos) && UserBytes(mem, root) && SameMap(m0, mem, root) && free == old(free)
        invariant Stored(m0, mem, root, dstva, src, done)
        decreases len
      {
        var va0 := va / PGSIZE * PGSIZE;
        var n := PGSIZE - (va - va0);
        if n > len {
          n := len;
        }
        var stored := CopyOutTurn(root, va, src[done..done + n], dstva, src, done, m0, pos);
        if !stored {
          return false, done;
        }
        len := len - n;
        va := va0 + PGSIZE;
        done := done + n;
      }
      return true, done;
    }

    /** walkaddr: the physical page of a user address, or 0. */
    method WalkAddr(root: nat, va: nat, ghost v: nat, ghost pos: map<nat, Pos>) returns (pa: nat)
      requires Ready() && Owns(root, pos) && va == v * PGSIZE
      modifies this, kmem
      ensures Ready() && mem == old(mem) && free == old(free)
      ensures pa != 0 <==> CanLoad(mem, root, v)
      ensures pa != 0 ==> pa == Pte2Pa(Lookup(mem, root, v))
    {
      if va >= MAXVA {
        return 0;
      }
      var slot, pte := ReadLeaf(root, va, v, pos);
      if slot.None? || !IsValid(pte) || !User(pte) {
        return 0;
      }
      return Pte2Pa(pte);
    }

    /** Loads len bytes from srcva byte by byte through the page table, or fails at the first page it cannot read. */
    method CopyIn(root: nat, srcva: nat, len: nat, ghost pos: map<nat, Pos>) returns (ok: bool, dst: seq<nat>)
      requires Ready() && Owns(root, pos) && UserBytes(mem, root)
      modifies this, kmem
      ensures Ready() && mem == old(mem) && free == old(free)
      ensures |dst| <= len && LoadsUpTo(mem, root, srcva, dst)
      ensures if ok then |dst| == len else |dst| < len && !CanLoad(mem, root, PageOf(srcva + |dst|))
    {
      var va, left := srcva, len;
      dst := [];
      while left > 0
        invariant 0 <= left && |dst| + left == len && (left > 0 ==> va == srcva + |dst|)
        invariant mem == old(mem) && free == old(free) && Ready() && Owns(root, pos) && UserBytes(mem, root)
        invariant LoadsUpTo(mem, root, srcva, dst)
        decreases left
      {
        var v, o := va / PGSIZE, va % PGSIZE;
        PageParts(v, 0);
        var pa := WalkAddr(root, va - o, v, pos);
        if pa == 0 {
          return false, dst;
        }
        var n := PGSIZE - o;
        if n > left {
          n := left;
        }
        assert UserPage(mem, root, v);
        var page := mem[pa].bytes[o..o + n];
        LoadsMore(mem, root, srcva, dst, v, o, n, page);
        dst := dst + page;
        left := left - n;
        va := v * PGSIZE + PGSIZE;
      }
      ok := true;
    }
  }
}
