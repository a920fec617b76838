/**
  The memory of all processes through the kernel's own operations: allocproc and uvmfirst for the first process,
  fork, growproc, copies into user memory, exec and freeproc, and the pages the kernel takes, writes and gives back for
  itself, in any order and any number.
 */
module ProcMemory {
  import opened PageTable
  import opened VmSpec
  import opened CopySpec
  import opened ProcPages
  import opened TableCount
  import opened ExecSpec
  import V = Vm

  class Procs {
    const vm: V.Vm
    const trampoline: nat
    var procs: map<nat, Proc>
    ghost var own: map<nat, Pages>
    var kern: set<nat>   // the pages the kernel took for itself

    ghost function Cfg(): Config
      reads vm
    {
      Config(vm.lo, vm.hi, trampoline)
    }

    ghost function Now(): State
      reads this, vm
    {
      State(vm.mem, vm.free, procs, own, kern)
    }

    ghost predicate Ready()
      reads vm, vm.kmem
    {
      vm.Ready() && trampoline % PGSIZE == 0 && vm.hi <= MAXMEM
    }

    ghost predicate Valid()
      reads this, vm, vm.kmem
    {
      Ready() && Inv(Cfg(), Now())
    }

    constructor (vm: V.Vm, trampoline: nat)
      requires vm.Ready() && trampoline % PGSIZE == 0 && vm.hi <= MAXMEM
      ensures Valid() && this.vm == vm && this.trampoline == trampoline && procs == map[] && kern == {}
    {
      this.vm, this.trampoline, this.procs, this.own, this.kern := vm, trampoline, map[], map[], {};
    }

    /** allocproc: a process without user memory if there are four free pages, or no page taken. */
    method AllocProc(pid: nat) returns (ok: bool)
      requires Valid() && pid !in procs
      modifies this`procs, this`own, vm, vm.kmem
      ensures Valid() && Step(old(Now()), pid, Now())
      ensures !ok <==> Fewer(old(vm.free), 4)
      ensures ok ==> pid in procs && procs[pid].sz == 0
      ensures !ok ==> procs == old(procs) && vm.free == old(vm.free)
    {
      ghost var s := Now();
      var trapframe, root;
      ghost var pos;
      trapframe, root, pos := vm.AllocProcPages(trampoline);
      ok := root != 0;
      ghost var s';
      if ok {
        NoUserPages(vm.mem, root);
        s' := Made(Cfg(), s, pid, Proc(root, 0, trapframe), Of(pos, []), vm.mem, vm.free);
        procs := procs[pid := Proc(root, 0, trapframe)];
        own := own[pid := Of(pos, [])];
      } else {
        s' := NotMade(Cfg(), s, pid, vm.mem);
      }
      assert Now() == s';
    }

    /**
      fork: the child's memory is a copy of the parent's on pages of its own, exactly if there are as many free pages as
      trapframe, tables and copies take; otherwise no page is taken.
     */
    method Fork(parent: nat, pid: nat) returns (ok: bool)
      requires Valid() && parent in procs && pid !in procs
      modifies this`procs, this`own, vm, vm.kmem
      ensures Valid() && Step(old(Now()), pid, Now())
      ensures !ok <==> Fewer(old(vm.free), ForkNeeds(PageCount(old(procs[parent].sz))))
      ensures ok ==> pid in procs && procs[pid].sz == old(procs[parent].sz)
      ensures ok ==> pid in own && parent in old(own) && CopyOf(own[pid].us, old(own[parent].us))
      ensures !ok ==> procs == old(procs) && vm.free == old(vm.free)
    {
      ghost var s := Now();
      Owner(Cfg(), s, parent);
      var p := procs[parent];
      var trapframe, root;
      ghost var us, pos;
      ok, trapframe, root, us, pos := vm.ForkMemory(p.root, p.sz, trampoline, own[parent].us, own[parent].pos);
      ghost var s';
      if ok {
        CopyFull(us, s.own[parent].us);
        s' := Made(Cfg(), s, pid, Proc(root, p.sz, trapframe), Of(pos, us), vm.mem, vm.free);
        procs := procs[pid := Proc(root, p.sz, trapframe)];
        own := own[pid := Of(pos, us)];
      } else {
        s' := NotMade(Cfg(), s, pid, vm.mem);
      }
      assert Now() == s';
    }

    /** uvmalloc on an image: new zeroed pages behind the old ones, or only tables more. */
    method Extend(p: Proc, newsz: nat, xperm: nat, ghost o: Pages)
      returns (r: nat, ghost ok: bool, ghost p': Proc, ghost o': Pages, ghost v: nat, ghost n: nat)
      requires Ready() && Image(Cfg(), vm.mem, p, o) && o.held !! vm.free && xperm < 16 && xperm % 4 == 0
      modifies vm, vm.kmem
      ensures Ready() && o'.held !! vm.free && o'.held + vm.free == o.held + old(vm.free)
      ensures Untouched(old(vm.mem), vm.mem, o.held + old(vm.free))
      ensures p' == (if ok then p.(sz := r) else p) && Image(Cfg(), vm.mem, p', o')
      ensures ok ==>
                r == (if newsz < p.sz then p.sz else newsz) && o.us <= o'.us && ZeroedFrom(o'.us, |o.us|, 19 + xperm)
      ensures !ok ==> && p.sz <= newsz && r == 0 && o'.us == o.us
                      && |vm.free| <= PageCount(newsz) - PageCount(p.sz)
      ensures v == |o.us| && (newsz < p.sz ==> o' == o)
      ensures p.sz <= newsz ==> v + n == PageCount(newsz) && Labels(o.pos, o'.pos, v, n)
      ensures !ok ==> TooFew(vm.free, o.pos, o'.pos, v, n)
    {
      ghost var s0, us, pos := Space(vm.mem, vm.free, o.pos), [], o.pos;
      if newsz < p.sz {
        r, ok, us, pos, v, n := vm.UvmAlloc(p.root, p.sz, newsz, xperm, o.pos);
        p', o' := p, o;
      } else {
        Room(Cfg(), vm.mem, p, o, vm.free, newsz);
        r, ok, us, pos, v, n := vm.UvmAlloc(p.root, p.sz, newsz, xperm, o.pos);
        Extended(Cfg(), s0, Space(vm.mem, vm.free, pos), p, o.us, us, newsz, xperm, ok);
        p', o' := if ok then p.(sz := r) else p, Of(pos, if ok then o.us + us else o.us);
      }
    }

    /** uvmdealloc on an image: the pages beyond the new size become free. */
    method Shrink(p: Proc, newsz: nat, ghost o: Pages) returns (r: nat, ghost o': Pages)
      requires Ready() && Image(Cfg(), vm.mem, p, o) && o.held !! vm.free
      modifies vm, vm.kmem
      ensures Ready() && o'.held !! vm.free && o'.held + vm.free == o.held + old(vm.free)
      ensures Untouched(old(vm.mem), vm.mem, o.held + old(vm.free)) && Image(Cfg(), vm.mem, p.(sz := r), o')
      ensures r == if newsz < p.sz then newsz else p.sz
      ensures o'.us <= o.us && |o'.us| == PageCount(r)
    {
      ghost var m0, k := vm.mem, PageCount(newsz);
      if newsz < p.sz {
        PageCountMonotone(newsz, p.sz);
        Suffix(Cfg(), m0, p, o, k);
        r := vm.UvmDealloc(p.root, p.sz, newsz, o.us[k..], o.pos);
        ImageShrunk(Cfg(), m0, vm.mem, p, o, k, newsz);
        o' := Of(o.pos, o.us[..k]);
      } else {
        r := vm.UvmDealloc(p.root, p.sz, newsz, [], o.pos);
        o' := o;
      }
    }

    /** The new fields of a process whose image changed since state s. */
    method Store(pid: nat, p: Proc, ghost o: Pages, ghost s: State)
      requires Ready() && Inv(Cfg(), s) && s.procs == procs && s.own == own && s.kern == kern
      requires pid in procs && pid in own
      requires Image(Cfg(), vm.mem, p, o) && p.trapframe == procs[pid].trapframe
      requires o.held !! vm.free && o.held + vm.free == own[pid].held + s.free
      requires Untouched(s.m, vm.mem, own[pid].held + s.free)
      modifies this`procs, this`own
      ensures Valid() && Step(s, pid, Now()) && procs == old(procs)[pid := p] && own == old(own)[pid := o]
    {
      ghost var s' := Remade(Cfg(), s, pid, p, o, vm.mem, vm.free);
      procs := procs[pid := p];
      own := own[pid := o];
      assert Now() == s';
    }

    /** growproc with a positive amount. */
    method GrowUp(pid: nat, n: nat) returns (r: int)
      requires Valid() && pid in procs && 0 < n
      modifies this`procs, this`own, vm, vm.kmem
      ensures Valid() && Step(old(Now()), pid, Now()) && pid in procs && pid in own && pid in old(own)
      ensures procs[pid] == old(procs[pid]).(sz := procs[pid].sz)
      ensures Resized(old(procs[pid].sz), n, old(own[pid].us), r, procs[pid].sz, own[pid].us, |vm.free|)
    {
      ghost var s := Now();
      Owner(Cfg(), s, pid);
      var p := procs[pid];
      var sz;
      ghost var o, p', ok, v, k;
      sz, ok, p', o, v, k := Extend(p, p.sz + n, 4, own[pid]);
      r := if sz == 0 then -1 else 0;
      ResizedUp(p.sz, n, own[pid].us, ok, o.us, |vm.free|);
      if sz == 0 {
        sz := p.sz;
      }
      assert p' == p.(sz := sz);
      Store(pid, p.(sz := sz), o, s);
    }

    /** growproc with a negative amount. A new size below zero wraps around and changes nothing. */
    method GrowDown(pid: nat, n: int) returns (r: int)
      requires Valid() && pid in procs && -0x8000_0000 <= n < 0
      modifies this`procs, this`own, vm, vm.kmem
      ensures Valid() && Step(old(Now()), pid, Now()) && pid in procs && pid in own && pid in old(own)
      ensures procs[pid] == old(procs[pid]).(sz := procs[pid].sz)
      ensures Resized(old(procs[pid].sz), n, old(own[pid].us), r, procs[pid].sz, own[pid].us, |vm.free|)
    {
      ghost var s := Now();
      Owner(Cfg(), s, pid);
      var p := procs[pid];
      var sz;
      ghost var o;
      sz, o := Shrink(p, Wrapped(p.sz + n), own[pid]);
      ResizedDown(p.sz, n, own[pid].us, sz, o.us, |vm.free|);
      Store(pid, p.(sz := sz), o, s);
      r := 0;
    }

    /** growproc. */
    method GrowProc(pid: nat, n: int) returns (r: int)
      requires Valid() && pid in procs && -0x8000_0000 <= n < 0x8000_0000
      modifies this`procs, this`own, vm, vm.kmem
      ensures Valid() && Step(old(Now()), pid, Now()) && pid in procs && pid in own && pid in old(own)
      ensures procs[pid] == old(procs[pid]).(sz := procs[pid].sz)
      ensures Resized(old(procs[pid].sz), n, old(own[pid].us), r, procs[pid].sz, own[pid].us, |vm.free|)
    {
      if n > 0 {
        r := GrowUp(pid, n);
      } else if n < 0 {
        r := GrowDown(pid, n);
      } else {
        r := 0;
        Still(Cfg(), Now(), pid);
      }
    }

    /** uvmfirst on an image without user pages. */
    method UvmFirst(p: Proc, code: seq<nat>, ghost o: Pages) returns (ok: bool, ghost o': Pages)
      requires Ready() && Image(Cfg(), vm.mem, p, o) && o.held !! vm.free && p.sz == 0 && |code| < PGSIZE
      modifies vm, vm.kmem
      ensures Ready() && o'.held !! vm.free && o'.held + vm.free == o.held + old(vm.free)
      ensures Untouched(old(vm.mem), vm.mem, o.held + old(vm.free))
      ensures Image(Cfg(), vm.mem, p.(sz := if ok then PGSIZE else 0), o')
      ensures ok ==> |o'.us| == 1 && code <= o'.us[0].bytes
    {
      ghost var s0 := Space(vm.mem, vm.free, o.pos);
      assert o.us == [] && PaSet([]) == {};
      VacantAbove(Cfg(), vm.mem, p, o, 1);
      ghost var u, pos;
      ok, u, pos := vm.AddNext(p.root, 0, code + seq(PGSIZE - |code|, _ => 0), 30, s0, 0, [], 0, o.pos);
      o' := Of(pos, if ok then [u] else []);
      assert [] + [u] == [u];
      FirstImage(Cfg(), s0, Space(vm.mem, vm.free, pos), p, ok, u);
    }

    /** uvmfirst, and the size that userinit sets. */
    method FirstPage(pid: nat, code: seq<nat>) returns (ok: bool)
      requires Valid() && pid in procs && procs[pid].sz == 0 && |code| < PGSIZE
      modifies this`procs, this`own, vm, vm.kmem
      ensures Valid() && Step(old(Now()), pid, Now()) && pid in procs && pid in own
      ensures ok ==> procs[pid].sz == PGSIZE && |own[pid].us| == 1 && code <= own[pid].us[0].bytes
    {
      ghost var s, o := Now(), own[pid];
      Owner(Cfg(), s, pid);
      var p := procs[pid];
      ok, o := UvmFirst(p, code, own[pid]);
      var p' := p.(sz := if ok then PGSIZE else 0);
      Store(pid, p', o, s);
    }

    /** copyout through an image. */
    method StoreThrough(p: Proc, va: nat, src: seq<nat>, ghost o: Pages)
      returns (ok: bool, ghost k: nat, ghost o': Pages)
      requires Ready() && Image(Cfg(), vm.mem, p, o) && o.held !! vm.free
      modifies vm, vm.kmem
      ensures Ready() && vm.free == old(vm.free) && Image(Cfg(), vm.mem, p, o') && o'.held == o.held
      ensures Untouched(old(vm.mem), vm.mem, PaSet(o.us))
      ensures Stored(old(vm.mem), vm.mem, p.root, va, src, k) && (ok <==> k == |src|)
      ensures !ok ==> !CanStore(old(vm.mem), p.root, PageOf(va + k))
      ensures o'.pos == o.pos && o'.us == Reread(vm.mem, o.us)
    {
      ghost var m0 := vm.mem;
      ImageUserBytes(Cfg(), m0, p, o);
      ok, k := vm.CopyOut(p.root, va, src, o.pos);
      StoredFrame(Cfg(), m0, vm.mem, p, o, va, src, k);
      ImageStored(Cfg(), m0, vm.mem, p, o);
      o' := Of(o.pos, Reread(vm.mem, o.us));
    }

    /** The same for an image whose new bytes do not matter. */
    method StoreUser(p: Proc, va: nat, src: seq<nat>, ghost o: Pages)
      returns (ok: bool, ghost k: nat, ghost o': Pages)
      requires Ready() && Image(Cfg(), vm.mem, p, o) && o.held !! vm.free
      modifies vm, vm.kmem
      ensures Ready() && vm.free == old(vm.free) && Image(Cfg(), vm.mem, p, o') && o'.held == o.held
      ensures Untouched(old(vm.mem), vm.mem, PaSet(o.us))
      ensures Stored(old(vm.mem), vm.mem, p.root, va, src, k) && (ok <==> k == |src|)
      ensures !ok ==> !CanStore(old(vm.mem), p.root, PageOf(va + k))
    {
      ok, k, o' := StoreThrough(p, va, src, o);
    }

    /** The new bytes of a process whose user pages alone were written since state s. */
    ghost method Rewritten(pid: nat, o: Pages, s: State)
      requires Ready() && Inv(Cfg(), s) && s.procs == procs && s.own == own && s.kern == kern
      requires pid in procs && pid in own && s.free == vm.free
      requires Image(Cfg(), vm.mem, procs[pid], o) && o.held == own[pid].held && o.held !! vm.free
      requires Untouched(s.m, vm.mem, PaSet(own[pid].us)) && PaSet(own[pid].us) <= own[pid].held
      modifies this`own
      ensures Valid() && Step(s, pid, Now()) && own == old(own)[pid := o]
    {
      Widen(s.m, vm.mem, PaSet(own[pid].us), own[pid].held + s.free);
      ghost var s' := Remade(Cfg(), s, pid, procs[pid], o, vm.mem, vm.free);
      own := own[pid := o];
      assert Now() == s';
    }

    /** copyout to a process: its own pages change where its page table lets it write, and nothing else. */
    method CopyOut(pid: nat, va: nat, src: seq<nat>) returns (ok: bool, ghost k: nat)
      requires Valid() && pid in procs
      modifies this`procs, this`own, vm, vm.kmem
      ensures Valid() && Step(old(Now()), pid, Now()) && procs == old(procs) && vm.free == old(vm.free)
      ensures pid in old(own) && Untouched(old(vm.mem), vm.mem, PaSet(old(own[pid].us)))
      ensures Stored(old(vm.mem), vm.mem, old(procs[pid].root), va, src, k) && (ok <==> k == |src|)
      ensures !ok ==> !CanStore(old(vm.mem), old(procs[pid].root), PageOf(va + k))
    {
      ghost var s := Now();
      Owner(Cfg(), s, pid);
      var p := procs[pid];
      ghost var o;
      ok, k, o := StoreUser(p, va, src, own[pid]);
      Rewritten(pid, o, s);
    }

    /** exec's error exit, and the end of an image that is replaced. */
    method Discard(p: Proc, ghost o: Pages)
      requires Ready() && Image(Cfg(), vm.mem, p, o) && o.held !! vm.free
      modifies vm, vm.kmem
      ensures Ready() && vm.free == old(vm.free) + o.held && Untouched(old(vm.mem), vm.mem, o.held)
    {
      vm.ProcFreePagetable(p.root, p.sz, trampoline, p.trapframe, o.us, o.pos);
    }

    /** The guard page below the stack. */
    method GuardPage(p: Proc, k: nat, ghost o: Pages) returns (ghost o': Pages)
      requires Ready() && Image(Cfg(), vm.mem, p, o) && o.held !! vm.free && k < |o.us| && o.us[k].flags == 23
      modifies vm, vm.kmem
      ensures Ready() && vm.free == old(vm.free) && Untouched(old(vm.mem), vm.mem, o.held)
      ensures Image(Cfg(), vm.mem, p, o') && o' == o.(us := Guarded(o.us, k))
    {
      ghost var m0 := vm.mem;
      HoldsAt(m0, p.root, 0, o.us, k, k);
      FlagBits(Lookup(m0, p.root, k));
      vm.UvmClear(p.root, k * PGSIZE, k, o.pos);
      ImageGuarded(Cfg(), m0, vm.mem, p, o, k);
      o' := o.(us := Guarded(o.us, k));
    }

    /** A turn of loadseg: bytes for the beginning of page v; "loadseg: address should exist" is out of reach. */
    method LoadPage(p: Proc, v: nat, c: seq<nat>, ghost o: Pages)
      requires Ready() && Image(Cfg(), vm.mem, p, o) && o.held !! vm.free && AllUser(o.us)
      requires v < |o.us| && |c| <= PGSIZE
      modifies vm, vm.kmem
      ensures Ready() && vm.free == old(vm.free) && vm.mem == StoreBytes(old(vm.mem), p.root, v * PGSIZE, c)
    {
      UserLoads(Cfg(), vm.mem, p, o, v);
      var pa := vm.WalkAddr(p.root, v * PGSIZE, v, o.pos);
      ChunkStores(vm.mem, p.root, v, 0, c);
      vm.mem := vm.mem[pa := Bytes(Splice(vm.mem[pa].bytes, 0, c))];
    }

    /** loadseg: the bytes of the file are stored at vaddr through the new page table. */
    method LoadSeg(p: Proc, vaddr: nat, data: seq<nat>, ghost o: Pages) returns (ghost o': Pages)
      requires Ready() && Image(Cfg(), vm.mem, p, o) && o.held !! vm.free && AllUser(o.us)
      requires vaddr % PGSIZE == 0 && PageCount(vaddr + |data|) <= |o.us|
      modifies vm, vm.kmem
      ensures Ready() && vm.free == old(vm.free) && vm.mem == StoreBytes(old(vm.mem), p.root, vaddr, data)
      ensures Untouched(old(vm.mem), vm.mem, o.held) && Image(Cfg(), vm.mem, p, o')
      ensures o'.held == o.held && AllUser(o'.us) && o'.pos == o.pos && Wrote(o.us, o'.us, vaddr, data)
    {
      ghost var m0 := vm.mem;
      var i := 0;
      assert data[..0] == [];
      while i < |data|
        invariant 0 <= i <= |data| && (i < |data| ==> i % PGSIZE == 0) && Ready() && vm.free == old(vm.free)
        invariant vm.mem == StoreBytes(m0, p.root, vaddr, data[..i])
        decreases |data| - i
      {
        i := LoadTurn(p, vaddr, data, i, m0, o);
      }
      assert data[..i] == data;
      StoresInside(Cfg(), m0, p, o, vaddr, data);
      BytesStored(Cfg(), m0, p, o, vaddr, data);
      o' := Of(o.pos, Reread(vm.mem, o.us));
    }

    method LoadTurn(p: Proc, vaddr: nat, data: seq<nat>, i: nat, ghost m0: Memory, ghost o: Pages) returns (i': nat)
      requires Ready() && Image(Cfg(), m0, p, o) && o.held !! vm.free && AllUser(o.us)
      requires vaddr % PGSIZE == 0 && PageCount(vaddr + |data|) <= |o.us| && i < |data| && i % PGSIZE == 0
      requires vm.mem == StoreBytes(m0, p.root, vaddr, data[..i])
      modifies vm, vm.kmem
      ensures Ready() && vm.free == old(vm.free) && i < i' <= |data| && (i' < |data| ==> i' % PGSIZE == 0)
      ensures vm.mem == StoreBytes(m0, p.root, vaddr, data[..i'])
    {
      i' := PieceEnd(i, |data|);
      var v, c := (vaddr + i) / PGSIZE, data[i..i'];
      ghost var m := vm.mem;
      ghost var o1 := LoadSoFar(Cfg(), m0, m, p, o, vaddr, data, i);
      LoadAt(vaddr, i, |data|, v);
      LoadPage(p, v, c, o1);
      LoadNext(m0, m, vm.mem, p.root, vaddr, data, i, i', v, c);
    }

    /**
      proc_pagetable, and uvmalloc and loadseg for each segment; `stop` is where the program file makes exec give up.
     */
    method LoadSegments(trapframe: nat, segs: seq<Segment>, stop: nat) returns (ok: bool, p: Proc, ghost o: Pages)
      requires Ready() && trapframe % PGSIZE == 0 && Segments(segs)
      modifies vm, vm.kmem
      ensures Ready() && Untouched(old(vm.mem), vm.mem, old(vm.free))
      ensures !ok ==> vm.free == old(vm.free)
      ensures ok ==> p.trapframe == trapframe && Building(Cfg(), old(vm.mem), old(vm.free), vm.mem, vm.free, p, o)
      ensures ok ==> p.sz == SegmentsEnd(segs) && Shows(o.us, SegmentWrites(segs)) && Tabled(o)
      ensures ok ==> |segs| <= stop && (segs == [] || segs[0].end > 0)
      ensures !ok ==> || stop < |segs| || (segs != [] && segs[0].end == 0)
                      || Fewer(old(vm.free), ImageNeeds(PageCount(ImageSize(segs))))
    {
      ghost var m0, f0 := vm.mem, vm.free;
      FreeFew(f0, vm.hi);
      ok, p, o := NewTable(trapframe);
      if !ok {
        LackedTables(f0, PageCount(ImageSize(segs)));
        return;
      }
      var i := 0;
      while i < |segs|
        invariant 0 <= i <= |segs| && i <= stop && Ready() && p.trapframe == trapframe && AllUser(o.us) && ok
        invariant Building(Cfg(), m0, f0, vm.mem, vm.free, p, o) && p.sz == SegmentsEnd(segs[..i])
        invariant Shows(o.us, SegmentWrites(segs[..i])) && Tabled(o) && (i > 0 ==> segs[0].end > 0)
      {
        SegmentsSoFar(segs, i);
        ok, p, o := LoadSegment(p, segs[i], i == stop, m0, f0, o, SegmentWrites(segs[..i]));
        i := i + 1;
        if !ok {
          SegmentFailed(segs, i, f0, i - 1 == stop);
          return;
        }
      }
      assert segs[..i] == segs;
    }

    /** proc_pagetable, as the beginning of an image. */
    method NewTable(trapframe: nat) returns (ok: bool, p: Proc, ghost o: Pages)
      requires Ready() && trapframe % PGSIZE == 0
      modifies vm, vm.kmem
      ensures Ready() && Untouched(old(vm.mem), vm.mem, old(vm.free))
      ensures !ok ==> vm.free == old(vm.free) && Fewer(old(vm.free), 3)
      ensures ok ==> p.trapframe == trapframe && Building(Cfg(), old(vm.mem), old(vm.free), vm.mem, vm.free, p, o)
      ensures ok ==> p.sz == 0 && o.us == [] && Tabled(o)
    {
      var root;
      ghost var pos;
      root, pos := vm.ProcPagetable(trampoline, trapframe);
      ok, p, o := root != 0, Proc(root, 0, trapframe), Of(pos, []);
      if ok {
        NoUserPages(vm.mem, root);
        TablesComplete(vm.mem, root, map[root := Root], pos, vm.free, trampoline, trapframe);
      }
    }

    /** One segment: uvmalloc and loadseg, or the error exit. */
    method LoadSegment(p: Proc, seg: Segment, stop: bool, ghost m0: Memory, ghost f0: set<nat>, ghost o: Pages,
                       ghost ws: seq<Write>)
      returns (ok: bool, p': Proc, ghost o': Pages)
      requires Ready() && Building(Cfg(), m0, f0, vm.mem, vm.free, p, o) && GoodSegment(seg) && AllUser(o.us)
      requires Shows(o.us, ws) && Below(ws, p.sz) && Tabled(o) && Fewer(f0, MAXVPN)
      modifies vm, vm.kmem
      ensures Ready() && Untouched(m0, vm.mem, f0) && p'.trapframe == p.trapframe
      ensures !ok ==> vm.free == f0
      ensures ok ==> Building(Cfg(), m0, f0, vm.mem, vm.free, p', o') && AllUser(o'.us)
      ensures ok ==> p'.sz == Larger(p.sz, seg.end) && p'.sz > 0 && !stop
      ensures ok ==> Shows(o'.us, ws + [(seg.vaddr, seg.data)]) && Tabled(o')
      ensures !ok ==> stop || Larger(p.sz, seg.end) == 0 || Fewer(f0, ImageNeeds(PageCount(Larger(p.sz, seg.end))))
    {
      ok, p', o' := AddPages(p, seg.end, seg.perm, stop, m0, f0, o);
      if ok {
        ghost var m, o1 := vm.mem, o';
        AllUserMore(o.us, o'.us, seg.perm);
        PageCountMonotone(seg.vaddr + |seg.data|, p'.sz);
        BelowPages(ws, p.sz);
        ShowsMore(o.us, o1.us, ws, 19 + seg.perm);
        o' := LoadSeg(p', seg.vaddr, seg.data, o');
        ShowsWrite(o1.us, o'.us, ws, seg.vaddr, seg.data);
        Widen(m, vm.mem, o1.held, o1.held + vm.free);
        BuildingNext(Cfg(), m0, f0, m, vm.free, p', o1, vm.mem, vm.free, p', o');
      }
    }

    /** uvmalloc in exec, or the error exit. */
    method AddPages(p: Proc, end: nat, perm: nat, stop: bool, ghost m0: Memory, ghost f0: set<nat>, ghost o: Pages)
      returns (ok: bool, p': Proc, ghost o': Pages)
      requires Ready() && Building(Cfg(), m0, f0, vm.mem, vm.free, p, o) && perm < 16 && perm % 4 == 0
      requires Tabled(o) && Fewer(f0, MAXVPN)
      modifies vm, vm.kmem
      ensures Ready() && Untouched(m0, vm.mem, f0) && p'.trapframe == p.trapframe
      ensures !ok ==> vm.free == f0
      ensures ok ==> Building(Cfg(), m0, f0, vm.mem, vm.free, p', o') && o.us <= o'.us && Tabled(o') && !stop
      ensures ok ==> ZeroedFrom(o'.us, |o.us|, 19 + perm) && p'.sz == Larger(p.sz, end) && p'.sz > 0
      ensures !ok ==> stop || Larger(p.sz, end) == 0 || Fewer(f0, ImageNeeds(PageCount(Larger(p.sz, end))))
    {
      ok, p', o' := false, p, o;
      if !stop {
        ok, p', o' := GrowBuilding(p, end, perm, m0, f0, o);
      }
      if !ok {
        DiscardBuilding(p', m0, f0, o');
      }
    }

    method GrowBuilding(p: Proc, end: nat, perm: nat, ghost m0: Memory, ghost f0: set<nat>, ghost o: Pages)
      returns (ok: bool, p': Proc, ghost o': Pages)
      requires Ready() && Building(Cfg(), m0, f0, vm.mem, vm.free, p, o) && perm < 16 && perm % 4 == 0
      requires Tabled(o) && Fewer(f0, MAXVPN)
      modifies vm, vm.kmem
      ensures Ready() && p'.trapframe == p.trapframe && Building(Cfg(), m0, f0, vm.mem, vm.free, p', o')
      ensures ok ==> o.us <= o'.us && ZeroedFrom(o'.us, |o.us|, 19 + perm) && Tabled(o')
      ensures ok ==> p'.sz == Larger(p.sz, end) && p'.sz > 0
      ensures !ok ==> Larger(p.sz, end) == 0 || Fewer(f0, ImageNeeds(PageCount(Larger(p.sz, end))))
    {
      ghost var m, f := vm.mem, vm.free;
      var sz;
      ghost var added, q, v, n;
      sz, added, q, o', v, n := Extend(p, end, perm, o);
      BuildingNext(Cfg(), m0, f0, m, f, p, o, vm.mem, vm.free, q, o');
      ok, p' := sz != 0, if sz == 0 then p else p.(sz := sz);
      assert p' == q;
      GrownTables(Cfg(), vm.mem, q, o, o', vm.free, f0, v, n, p.sz, end, added);
    }

    method DiscardBuilding(p: Proc, ghost m0: Memory, ghost f0: set<nat>, ghost o: Pages)
      requires Ready() && Building(Cfg(), m0, f0, vm.mem, vm.free, p, o)
      modifies vm, vm.kmem
      ensures Ready() && vm.free == f0 && Untouched(m0, vm.mem, f0)
    {
      Discard(p, o);
    }

    /** The stack: the size is rounded up, and two pages are added. */
    method LoadStack(p: Proc, stop: bool, ghost m0: Memory, ghost f0: set<nat>, ghost o: Pages, ghost ws: seq<Write>)
      returns (ok: bool, p': Proc, ghost o': Pages)
      requires Ready() && Building(Cfg(), m0, f0, vm.mem, vm.free, p, o)
      requires Shows(o.us, ws) && Below(ws, p.sz) && Tabled(o) && Fewer(f0, MAXVPN)
      modifies vm, vm.kmem
      ensures Ready() && Untouched(m0, vm.mem, f0) && p'.trapframe == p.trapframe
      ensures !ok ==> vm.free == f0
      ensures ok ==> Building(Cfg(), m0, f0, vm.mem, vm.free, p', o')
      ensures ok ==> p'.sz == PgRoundUp(p.sz) + 2 * PGSIZE == |o'.us| * PGSIZE && |o'.us| == PageCount(p.sz) + 2
      ensures ok ==> Shows(o'.us, ws) && Tabled(o') && Stacked(o'.us) && !stop
      ensures !ok ==> stop || Fewer(f0, ImageNeeds(PageCount(PgRoundUp(p.sz) + 2 * PGSIZE)))
    {
      var top := PgRoundUp(p.sz);
      ImageRounded(Cfg(), vm.mem, p, o);
      BelowPages(ws, p.sz);
      ok, p', o' := AddStack(p.(sz := top), stop, m0, f0, o, ws);
    }

    /** uvmalloc for the stack, and uvmclear for the lower of its two pages. */
    method AddStack(p: Proc, stop: bool, ghost m0: Memory, ghost f0: set<nat>, ghost o: Pages, ghost ws: seq<Write>)
      returns (ok: bool, p': Proc, ghost o': Pages)
      requires Ready() && Building(Cfg(), m0, f0, vm.mem, vm.free, p, o) && p.sz == |o.us| * PGSIZE
      requires Shows(o.us, ws) && Below(ws, p.sz) && Tabled(o) && Fewer(f0, MAXVPN)
      modifies vm, vm.kmem
      ensures Ready() && Untouched(m0, vm.mem, f0) && p'.trapframe == p.trapframe
      ensures !ok ==> vm.free == f0
      ensures ok ==> Building(Cfg(), m0, f0, vm.mem, vm.free, p', o')
      ensures ok ==> p'.sz == p.sz + 2 * PGSIZE && |o'.us| == |o.us| + 2
      ensures ok ==> Shows(o'.us, ws) && Tabled(o') && Stacked(o'.us) && !stop
      ensures !ok ==> stop || Fewer(f0, ImageNeeds(PageCount(p.sz + 2 * PGSIZE)))
    {
      ok, p', o' := AddPages(p, p.sz + 2 * PGSIZE, 4, stop, m0, f0, o);
      if ok {
        ghost var m, o1 := vm.mem, o';
        StackAdded(o.us, o1.us, ws, p'.sz);
        o' := GuardPage(p', (p'.sz - 2 * PGSIZE) / PGSIZE, o');
        Widen(m, vm.mem, o1.held, o1.held + vm.free);
        BuildingNext(Cfg(), m0, f0, m, vm.free, p', o1, vm.mem, vm.free, p', o');
      }
    }

    /** exec's copyout of bytes to the stack page, which cannot fail. */
    method PushBytes(p: Proc, va: nat, src: seq<nat>, ghost m0: Memory, ghost f0: set<nat>, ghost o: Pages,
                     ghost ws: seq<Write>)
      returns (ok: bool, ghost o': Pages)
      requires Ready() && Building(Cfg(), m0, f0, vm.mem, vm.free, p, o)
      requires p.sz == |o.us| * PGSIZE && p.sz - PGSIZE <= va && va + |src| <= p.sz
      requires Shows(o.us, ws) && Stacked(o.us)
      modifies vm, vm.kmem
      ensures ok && Ready() && Building(Cfg(), m0, f0, vm.mem, vm.free, p, o') && |o'.us| == |o.us|
      ensures Shows(o'.us, ws + [(va, src)]) && Stacked(o'.us)
    {
      ghost var m, k := vm.mem, 0;
      ok, k, o' := StoreThrough(p, va, src, o);
      StackStored(Cfg(), m, vm.mem, p, o, ws, va, src, k);
      Widen(m, vm.mem, PaSet(o.us), o.held + vm.free);
      BuildingNext(Cfg(), m0, f0, m, vm.free, p, o, vm.mem, vm.free, p, o');
    }

    /** sp -= strlen(argv[argc]) + 1; sp -= sp % 16 */
    method NextString(ghost top: int, args: seq<seq<nat>>, i: nat, sp: nat) returns (below: int)
      requires i < |args| && sp == StringsEnd(top, args[..i])
      ensures below == StringsEnd(top, args[..i + 1]) && below + |args[i]| < sp
    {
      below := sp - (|args[i]| + 1);
      below := below - below % 16;
      assert args[..i + 1][..i] == args[..i];
    }

    /** sp -= (argc + 1) * sizeof(uint64); sp -= sp % 16 */
    method NextArray(ghost top: int, args: seq<seq<nat>>, sp: nat) returns (below: int)
      requires sp == StringsEnd(top, args)
      ensures below == ArrayAt(top, args) && below + (|args| + 1) * 8 <= sp
    {
      below := sp - (|args| + 1) * 8;
      below := below - below % 16;
    }

    /** One argument: its string goes below the ones before it, on a boundary of 16 bytes. */
    method PushString(p: Proc, args: seq<seq<nat>>, i: nat, sp: nat, ustack: seq<nat>, ghost m0: Memory,
                      ghost f0: set<nat>, ghost o: Pages, ghost ws: seq<Write>)
      returns (ok: bool, sp': nat, ustack': seq<nat>, ghost o': Pages)
      requires Ready() && Building(Cfg(), m0, f0, vm.mem, vm.free, p, o) && i < |args|
      requires Pushed(o.us, p.sz, args[..i], sp, ustack, ws)
      modifies vm, vm.kmem
      ensures Ready() && Building(Cfg(), m0, f0, vm.mem, vm.free, p, o')
      ensures ok ==> Pushed(o'.us, p.sz, args[..i + 1], sp', ustack', ws) && |o'.us| == |o.us|
      ensures !ok ==> StringsEnd(p.sz, args[..i + 1]) < p.sz - PGSIZE
    {
      var below := NextString(p.sz, args, i, sp);
      if below < p.sz - PGSIZE {
        return false, sp, ustack, o;
      }
      sp', ustack' := below, ustack + Word(below, PTRSIZE);
      ok, o' := PushBytes(p, sp', args[i] + [0], m0, f0, o, ws + StringWrites(p.sz, args[..i]));
      PushedNext(o.us, o'.us, p.sz, args, i, sp, ustack, sp', ustack', ws);
    }

    /** The strings of all arguments, as long as there is room on the stack page. */
    method PushStrings(p: Proc, args: seq<seq<nat>>, ghost m0: Memory, ghost f0: set<nat>, ghost o: Pages,
                       ghost ws: seq<Write>)
      returns (ok: bool, sp: nat, ustack: seq<nat>, ghost o': Pages)
      requires Ready() && Building(Cfg(), m0, f0, vm.mem, vm.free, p, o) && p.sz == |o.us| * PGSIZE
      requires Shows(o.us, ws) && Stacked(o.us)
      modifies vm, vm.kmem
      ensures Ready() && Building(Cfg(), m0, f0, vm.mem, vm.free, p, o') && (!ok ==> !ArgsFit(p.sz, args))
      ensures ok ==> Pushed(o'.us, p.sz, args, sp, ustack, ws) && |o'.us| == |o.us|
    {
      ok, sp, ustack, o' := true, p.sz, [], o;
      PushedNone(o.us, p.sz, args, ws);
      var i := 0;
      while i < |args|
        invariant 0 <= i <= |args| && Ready() && Building(Cfg(), m0, f0, vm.mem, vm.free, p, o') && ok
        invariant Pushed(o'.us, p.sz, args[..i], sp, ustack, ws) && |o'.us| == |o.us|
      {
        ok, sp, ustack, o' := PushString(p, args, i, sp, ustack, m0, f0, o', ws);
        i := i + 1;
        if !ok {
          NoRoom(p.sz, args, i);
          return;
        }
      }
      assert args[..i] == args;
    }

    /** argv itself. */
    method PushArray(p: Proc, args: seq<seq<nat>>, sp: nat, ustack: seq<nat>, ghost m0: Memory, ghost f0: set<nat>,
                     ghost o: Pages, ghost ws: seq<Write>)
      returns (ok: bool, sp': nat, ghost o': Pages)
      requires Ready() && Building(Cfg(), m0, f0, vm.mem, vm.free, p, o) && |args| < MAXARG
      requires Pushed(o.us, p.sz, args, sp, ustack, ws)
      modifies vm, vm.kmem
      ensures Ready() && Building(Cfg(), m0, f0, vm.mem, vm.free, p, o') && (ok <==> ArgsFit(p.sz, args))
      ensures ok ==> sp' == ArrayAt(p.sz, args) && |o'.us| == |o.us| && Stacked(o'.us)
      ensures ok ==> Shows(o'.us, ws + ArgWrites(p.sz, args))
    {
      var below := NextArray(p.sz, args, sp);
      if below < p.sz - PGSIZE {
        return false, sp, o;
      }
      sp' := below;
      ArgWritesLast(ws, p.sz, args);
      ok, o' := PushBytes(p, sp', ustack + Word(0, PTRSIZE), m0, f0, o, ws + StringWrites(p.sz, args));
    }

    /** exec's arguments: the strings and argv on the stack page, or the error exit. */
    method PushArgs(p: Proc, args: seq<seq<nat>>, ghost m0: Memory, ghost f0: set<nat>, ghost o: Pages,
                    ghost ws: seq<Write>)
      returns (ok: bool, sp: nat, ghost o': Pages)
      requires Ready() && Building(Cfg(), m0, f0, vm.mem, vm.free, p, o) && p.sz == |o.us| * PGSIZE
      requires Shows(o.us, ws) && Stacked(o.us)
      modifies vm, vm.kmem
      ensures Ready() && Untouched(m0, vm.mem, f0) && (ok <==> ArgsFit(p.sz, args))
      ensures if ok then Building(Cfg(), m0, f0, vm.mem, vm.free, p, o') else vm.free == f0
      ensures ok ==> sp == ArrayAt(p.sz, args) && |o'.us| == |o.us| && Stacked(o'.us)
      ensures ok ==> Shows(o'.us, ws + ArgWrites(p.sz, args))
    {
      sp, o' := 0, o;
      if |args| >= MAXARG {
        DiscardBuilding(p, m0, f0, o');
        return false, sp, o';
      }
      var ustack;
      ok, sp, ustack, o' := PushStrings(p, args, m0, f0, o, ws);
      if ok {
        ok, sp, o' := PushArray(p, args, sp, ustack, m0, f0, o', ws);
      }
      if !ok {
        DiscardBuilding(p, m0, f0, o');
      }
    }

    /**
      The memory side of exec: a new image with the segments of the file and the arguments, and the old one freed; or,
      whatever fails on the way, the old image with no page taken. It fails exactly if the file or the arguments are
      bad or there are fewer free pages than the new image takes.
     */
    method Exec(pid: nat, segs: seq<Segment>, args: seq<seq<nat>>, stop: nat) returns (ok: bool, sp: nat)
      requires Valid() && pid in procs && Segments(segs)
      modifies this`procs, this`own, vm, vm.kmem
      ensures Valid() && Step(old(Now()), pid, Now())
      ensures ok <==> Loadable(segs, args, stop) && !Fewer(old(vm.free), ImageNeeds(PageCount(ImageSize(segs))))
      ensures ok ==> pid in procs && procs[pid] == old(procs[pid]).(root := procs[pid].root, sz := ImageSize(segs))
      ensures ok ==> sp == ArrayAt(ImageSize(segs), args) && ImageSize(segs) <= MAXVA
      ensures ok ==> LoadsAs(vm.mem, procs[pid].root, ImageSize(segs),
                             SegmentWrites(segs) + ArgWrites(ImageSize(segs), args))
      ensures ok ==> StackGuarded(vm.mem, procs[pid].root, PageCount(SegmentsEnd(segs)))
      ensures !ok ==> procs == old(procs) && vm.free == old(vm.free)
    {
      ghost var s := Now();
      Owner(Cfg(), s, pid);
      var p, p' := procs[pid], procs[pid];
      ghost var o' := own[pid];
      ok, sp, p', o' := BuildImage(p.trapframe, segs, args, stop);
      ImageFrame(Cfg(), s.m, vm.mem, p, own[pid], s.free);
      if ok {
        Replace(pid, p', o', s);
        Finished(Cfg(), vm.mem, p', o', SegmentWrites(segs) + ArgWrites(ImageSize(segs), args));
      } else {
        Store(pid, p, own[pid], s);
        assert procs == s.procs;
      }
    }

    /** exec up to the point where it can no longer fail. */
    method BuildImage(trapframe: nat, segs: seq<Segment>, args: seq<seq<nat>>, stop: nat)
      returns (ok: bool, sp: nat, p: Proc, ghost o: Pages)
      requires Ready() && trapframe % PGSIZE == 0 && Segments(segs)
      modifies vm, vm.kmem
      ensures Ready() && Untouched(old(vm.mem), vm.mem, old(vm.free))
      ensures !ok ==> vm.free == old(vm.free)
      ensures ok ==> p.trapframe == trapframe && Building(Cfg(), old(vm.mem), old(vm.free), vm.mem, vm.free, p, o)
      ensures ok <==> Loadable(segs, args, stop) && !Fewer(old(vm.free), ImageNeeds(PageCount(ImageSize(segs))))
      ensures ok ==> p.sz == ImageSize(segs) && sp == ArrayAt(p.sz, args) && Stacked(o.us)
      ensures ok ==> |o.us| == PageCount(SegmentsEnd(segs)) + 2
      ensures ok ==> Shows(o.us, SegmentWrites(segs) + ArgWrites(ImageSize(segs), args))
    {
      ghost var m0, f0, ws := vm.mem, vm.free, SegmentWrites(segs);
      FreeFew(f0, vm.hi);
      SegmentsBelow(segs);
      sp := 0;
      ok, p, o := LoadSegments(trapframe, segs, stop);
      if ok {
        ok, p, o := LoadStack(p, stop == |segs|, m0, f0, o, ws);
        if ok {
          Sufficed(Cfg(), vm.mem, p, o, vm.free, f0);
          ok, sp, o := PushArgs(p, args, m0, f0, o, ws);
        }
      }
    }

    /** exec's last step: the new image becomes the process's own, and the old one is freed. */
    method Replace(pid: nat, p': Proc, ghost o': Pages, ghost s: State)
      requires Ready() && Inv(Cfg(), s) && s.procs == procs && s.own == own && s.kern == kern
      requires pid in procs && pid in own
      requires Image(Cfg(), vm.mem, procs[pid], own[pid]) && own[pid].held !! s.free
      requires Building(Cfg(), s.m, s.free, vm.mem, vm.free, p', o') && p'.trapframe == procs[pid].trapframe
      modifies this`procs, this`own, vm, vm.kmem
      ensures Valid() && Step(s, pid, Now()) && procs == old(procs)[pid := p'] && Image(Cfg(), vm.mem, p', o')
    {
      ghost var m := vm.mem;
      Discard(procs[pid], own[pid]);
      ImageFrame(Cfg(), m, vm.mem, p', o', own[pid].held);
      Store(pid, p', o', s);
    }

    /** The memory side of freeproc, for a process that was reaped. */
    method Reap(pid: nat)
      requires Valid() && pid in procs
      modifies this`procs, this`own, vm, vm.kmem
      ensures Valid() && Step(old(Now()), pid, Now()) && procs == old(procs) - {pid}
      ensures vm.free == old(vm.free) + old(FootOf(Now(), pid))
    {
      ghost var s := Now();
      Owner(Cfg(), s, pid);
      var p := procs[pid];
      vm.FreeProc(p.root, p.sz, trampoline, p.trapframe, own[pid].us, own[pid].pos);
      ghost var s' := Reaped(Cfg(), s, pid, vm.mem, vm.free);
      procs := procs - {pid};
      own := own - {pid};
      assert Now() == s';
    }

    /** A page for the kernel's own use, or 0. */
    method KernelTake() returns (page: nat)
      requires Valid()
      modifies this`kern, vm, vm.kmem
      ensures Valid() && KernelStep(old(Now()), Now())
      ensures page == 0 <==> old(vm.free) == {}
      ensures kern == if page == 0 then old(kern) else old(kern) + {page}
    {
      ghost var s := Now();
      page := vm.Kalloc();
      if page != 0 {
        kern := kern + {page};
      }
      KernelInv(Cfg(), s, Now());
    }

    /** The kernel gives a page back. */
    method KernelGive(page: nat)
      requires Valid() && page in kern
      modifies this`kern, vm, vm.kmem
      ensures Valid() && KernelStep(old(Now()), Now()) && kern == old(kern) - {page}
      ensures vm.free == old(vm.free) + {page}
    {
      ghost var s := Now();
      vm.Kfree(page);
      kern := kern - {page};
      KernelInv(Cfg(), s, Now());
    }

    /** The kernel writes a page of its own. */
    method KernelWrite(page: nat, frame: Frame)
      requires Valid() && page in kern
      modifies vm
      ensures Valid() && KernelStep(old(Now()), Now()) && vm.mem == old(vm.mem)[page := frame]
      ensures vm.free == old(vm.free)
    {
      ghost var s := Now();
      vm.mem := vm.mem[page := frame];
      KernelInv(Cfg(), s, Now());
    }

    /** One operation of the kernel, if there is the process or the page it is for. */
    method Perform(op: Op)
      requires Valid() && WellFormed(op)
      modifies this, vm, vm.kmem
      ensures Valid() && All(Now()) == old(All(Now()))
    {
      if Enabled(op) {
        if op.KernelTake? || op.KernelGive? || op.KernelWrite? {
          PerformKernel(op);
        } else {
          PerformProc(op);
        }
      }
    }

    method PerformProc(op: Op)
      requires Valid() && WellFormed(op) && Enabled(op) && !op.KernelTake? && !op.KernelGive? && !op.KernelWrite?
      modifies this`procs, this`own, vm, vm.kmem
      ensures Valid() && All(Now()) == old(All(Now()))
    {
      ghost var s, pid := Now(), op.pid;
      match op {
        case AllocProc(q) => var _ := AllocProc(q);
        case FirstPage(q, code) => var _ := FirstPage(q, code);
        case Fork(q, parent) => var _ := Fork(parent, q);
        case GrowProc(q, n) => var _ := GrowProc(q, n);
        case CopyOut(q, va, src) => var _, _ := CopyOut(q, va, src);
        case Exec(q, segs, args, stop) => var _, _ := Exec(q, segs, args, stop);
        case Reap(q) => Reap(q);
      }
      StepConserves(s, pid, Now());
    }

    method PerformKernel(op: Op)
      requires Valid() && Enabled(op) && (op.KernelTake? || op.KernelGive? || op.KernelWrite?)
      modifies this`kern, vm, vm.kmem
      ensures Valid() && All(Now()) == old(All(Now()))
    {
      ghost var s := Now();
      match op {
        case KernelTake => var _ := KernelTake();
        case KernelGive(page) => KernelGive(page);
        case KernelWrite(page, frame) => KernelWrite(page, frame);
      }
      KernelConserves(s, Now());
    }

    predicate Enabled(op: Op)
      reads this
    {
      match op
      case AllocProc(pid) => pid !in procs
      case FirstPage(pid, _) => pid in procs && procs[pid].sz == 0
      case Fork(pid, parent) => pid !in procs && parent in procs
      case KernelTake => true
      case KernelGive(page) => page in kern
      case KernelWrite(page, _) => page in kern
      case _ => op.pid in procs
    }

    /** Every run: no operation breaks the invariant, and no page is lost or made. */
    method Run(ops: seq<Op>)
      requires Valid() && forall i :: 0 <= i < |ops| ==> WellFormed(ops[i])
      modifies this, vm, vm.kmem
      ensures Valid() && All(Now()) == old(All(Now()))
    {
      for i := 0 to |ops|
        invariant Valid() && All(Now()) == old(All(Now()))
      {
        Perform(ops[i]);
      }
    }
  }

  /** What a run is made of. Exec stops where its program file is bad. */
  datatype Op =
    | AllocProc(pid: nat)
    | FirstPage(pid: nat, code: seq<nat>)
    | Fork(pid: nat, parent: nat)
    | GrowProc(pid: nat, n: int)
    | CopyOut(pid: nat, va: nat, src: seq<nat>)
    | Exec(pid: nat, segs: seq<Segment>, args: seq<seq<nat>>, stop: nat)
    | Reap(pid: nat)
    | KernelTake
    | KernelGive(page: nat)
    | KernelWrite(page: nat, frame: Frame)

  /** The widths that C's types leave, and what exec's own tests of a program header leave. */
  predicate WellFormed(op: Op) {
    match op
    case FirstPage(_, code) => |code| < PGSIZE
    case GrowProc(_, n) => -0x8000_0000 <= n < 0x8000_0000
    case Exec(_, segs, _, _) => Segments(segs)
    case _ => true
  }

  /**
    Page conservation, for every run from kinit on: each page of memory is free, the kernel's own, or belongs to exactly
    one process, and there are no others.
   */
  method Boot(lo: nat, hi: nat, trampoline: nat, ops: seq<Op>) returns (k: Procs)
    requires 0 < lo && hi <= MAXMEM && trampoline % PGSIZE == 0 && forall i :: 0 <= i < |ops| ==> WellFormed(ops[i])
    ensures fresh(k) && k.Valid()
    ensures forall q :: q % PGSIZE == 0 && lo <= q && q + PGSIZE <= hi <==>
                q in k.vm.free || q in k.kern || q in Feet(k.Now())
    ensures k.kern !! k.vm.free
    ensures forall a :: a in k.procs ==> FootOf(k.Now(), a) !! k.vm.free && FootOf(k.Now(), a) !! k.kern
    ensures forall a, b :: a in k.procs && b in k.procs && a != b ==> FootOf(k.Now(), a) !! FootOf(k.Now(), b)
  {
    var vm := new V.Vm(lo, hi);
    k := new Procs(vm, trampoline);
    NoFeet(k.Now());
    ghost var all := vm.free;
    assert All(k.Now()) == all;
    k.Run(ops);
    assert All(k.Now()) == all;
    OneOwner(k.Cfg(), k.Now());
  }
}
