/**
  The pages of all processes and of the kernel together. A process owns the tables of its page table, its user pages
  and its trapframe page. The kernel owns what it took for itself: its own page table, kernel stacks, the driver's
  rings, pipes, exec's argument pages. A page is free, the kernel's, or owned by exactly one process.
 */
module ProcPages {
  import opened PageTable
  import opened VmSpec
  import opened CopySpec

  /** Far above the top of physical memory, and half of the user address space. */
  const MAXMEM := 0x20_0000_0000

  /** p->pagetable, p->sz and p->trapframe. */
  datatype Proc = Proc(root: nat, sz: nat, trapframe: nat)

  /** The tables and the user pages behind a page table, and the set of them all. */
  datatype Pages = Pages(pos: map<nat, Pos>, us: seq<UPage>, held: set<nat>)

  function Of(pos: map<nat, Pos>, us: seq<UPage>): Pages { Pages(pos, us, pos.Keys + PaSet(us)) }

  /** What does not change: the allocator's range and the trampoline page. */
  datatype Config = Config(lo: nat, hi: nat, trampoline: nat)

  datatype State =
    State(m: Memory, free: set<nat>, procs: map<nat, Proc>, own: map<nat, Pages>, kern: set<nat>)

  function Foot(p: Proc, o: Pages): set<nat> { o.held + {p.trapframe} }

  ghost predicate FullPages(us: seq<UPage>) {
    forall i :: 0 <= i < |us| ==> |us[i].bytes| == PGSIZE
  }

  ghost predicate Ranged(c: Config, a: set<nat>) {
    forall q :: q in a ==> c.lo <= q < c.hi
  }

  /** A page table that maps the user pages of sz bytes, trampoline and trapframe, and nothing else. */
  ghost predicate Image(c: Config, m: Memory, p: Proc, o: Pages) {
    && IsTree(m, p.root, o.pos) && HoldsAll(m, p.root, 0, o.us) && FullPages(o.us)
    && |o.us| == PageCount(p.sz) <= MAXVPN - 2 && OnlyKernelPages(m, p.root, |o.us|, c.trampoline, p.trapframe)
    && o.pos.Keys !! PaSet(o.us) && o.held == o.pos.Keys + PaSet(o.us) && Ranged(c, o.held)
  }

  ghost predicate ProcOk(c: Config, m: Memory, p: Proc, o: Pages) {
    && Image(c, m, p, o)
    && p.trapframe in m && p.trapframe % PGSIZE == 0 && c.lo <= p.trapframe < c.hi && p.trapframe !in o.held
  }

  /** What a process owns, which is nothing if there is no such process. */
  function FootOf(s: State, pid: nat): set<nat> {
    if pid in s.procs && pid in s.own then Foot(s.procs[pid], s.own[pid]) else {}
  }

  /** Everything the processes own. */
  function Feet(s: State): set<nat> {
    set pid, q | pid in s.procs && q in FootOf(s, pid) :: q
  }

  /** Every page that is accounted for. */
  function All(s: State): set<nat> { s.free + s.kern + Feet(s) }

  ghost predicate Apart(s: State) {
    && s.kern !! s.free
    && (forall a {:trigger NotFree(s, a)} :: a in s.procs ==> NotFree(s, a))
    && (forall a, b {:trigger NotShared(s, a, b)} :: a in s.procs && b in s.procs && a != b ==> NotShared(s, a, b))
  }

  ghost predicate NotFree(s: State, a: nat) { FootOf(s, a) !! s.free && FootOf(s, a) !! s.kern }

  ghost predicate NotShared(s: State, a: nat, b: nat) { FootOf(s, a) !! FootOf(s, b) }

  ghost predicate AllOk(c: Config, s: State) {
    forall pid {:trigger ProcAt(c, s, pid)} :: pid in s.procs ==> ProcAt(c, s, pid)
  }

  ghost predicate ProcAt(c: Config, s: State, pid: nat) {
    pid in s.procs && pid in s.own && ProcOk(c, s.m, s.procs[pid], s.own[pid])
  }

  ghost predicate KernelOk(c: Config, s: State) {
    Ranged(c, s.kern) && forall q :: q in s.kern ==> q in s.m && q % PGSIZE == 0
  }

  ghost predicate Inv(c: Config, s: State) {
    s.own.Keys == s.procs.Keys && Apart(s) && AllOk(c, s) && KernelOk(c, s)
  }

  // ----- one process changes, the others stay -----

  lemma ImageFrame(c: Config, m: Memory, m': Memory, p: Proc, o: Pages, except: set<nat>)
    requires Image(c, m, p, o) && Untouched(m, m', except) && o.held !! except
    ensures Image(c, m', p, o)
  {
    ParentFrame(m, m', p.root, o.pos, o.us, except);
  }

  ghost predicate SameProc(s: State, s': State, q: nat) {
    && (q in s'.procs <==> q in s.procs) && (q in s.procs ==> s'.procs[q] == s.procs[q])
    && (q in s'.own <==> q in s.own) && (q in s.own ==> s'.own[q] == s.own[q])
  }

  /** Pages move between the process and the free set only, and no page of another process or the kernel is written. */
  ghost predicate Step(s: State, pid: nat, s': State) {
    && s'.own.Keys == s'.procs.Keys && s'.kern == s.kern
    && (forall q {:trigger SameProc(s, s', q)} :: q != pid ==> SameProc(s, s', q))
    && Untouched(s.m, s'.m, FootOf(s, pid) + s.free)
    && FootOf(s', pid) + s'.free == FootOf(s, pid) + s.free && FootOf(s', pid) !! s'.free
  }

  lemma StepOther(s: State, pid: nat, s': State, q: nat)
    requires Step(s, pid, s') && s.own.Keys == s.procs.Keys && q != pid
    ensures q in s'.procs <==> q in s.procs
    ensures q in s.procs ==> s'.procs[q] == s.procs[q] && s'.own[q] == s.own[q]
    ensures FootOf(s', q) == FootOf(s, q)
  {
    assert SameProc(s, s', q);
  }

  lemma StepApart(s: State, pid: nat, s': State)
    requires Step(s, pid, s') && s.own.Keys == s.procs.Keys && Apart(s)
    ensures Apart(s')
  {
    forall a {:trigger NotFree(s', a)} | a in s'.procs ensures NotFree(s', a) {
      if a != pid {
        StepOther(s, pid, s', a);
        assert NotFree(s, a) && (pid in s.procs ==> NotShared(s, a, pid));
      }
      assert pid in s.procs ==> NotFree(s, pid);
    }
    assert s'.kern !! s'.free by { assert pid in s.procs ==> NotFree(s, pid); }
    forall a, b {:trigger NotShared(s', a, b)} | a in s'.procs && b in s'.procs && a != b ensures NotShared(s', a, b) {
      StepShared(s, pid, s', a, b);
    }
  }

  lemma StepShared(s: State, pid: nat, s': State, a: nat, b: nat)
    requires Step(s, pid, s') && s.own.Keys == s.procs.Keys && Apart(s) && a in s'.procs && b in s'.procs && a != b
    ensures NotShared(s', a, b)
  {
    if a != pid {
      StepOther(s, pid, s', a);
      assert NotFree(s, a) && (pid in s.procs ==> NotShared(s, a, pid));
    }
    if b != pid {
      StepOther(s, pid, s', b);
      assert NotFree(s, b) && (pid in s.procs ==> NotShared(s, pid, b));
    }
    if a != pid && b != pid {
      assert NotShared(s, a, b);
    }
  }

  lemma StepFrame(c: Config, s: State, pid: nat, s': State, q: nat)
    requires Step(s, pid, s') && s.own.Keys == s.procs.Keys && Apart(s) && q != pid && q in s'.procs && ProcAt(c, s, q)
    ensures ProcAt(c, s', q)
  {
    StepOther(s, pid, s', q);
    assert NotFree(s, q) && (pid in s.procs ==> NotShared(s, q, pid));
    ImageFrame(c, s.m, s'.m, s.procs[q], s.own[q], FootOf(s, pid) + s.free);
  }

  lemma StepInv(c: Config, s: State, pid: nat, s': State)
    requires Inv(c, s) && Step(s, pid, s') && (pid in s'.procs ==> ProcAt(c, s', pid))
    ensures Inv(c, s')
  {
    StepApart(s, pid, s');
    forall q {:trigger ProcAt(c, s', q)} | q in s'.procs && q != pid ensures ProcAt(c, s', q) {
      StepOther(s, pid, s', q);
      StepFrame(c, s, pid, s', q);
    }
  }

  /** No page is lost and none appears. */
  lemma StepConserves(s: State, pid: nat, s': State)
    requires Step(s, pid, s') && s.own.Keys == s.procs.Keys
    ensures All(s') == All(s)
  {
    forall q | q in s'.free + Feet(s') ensures q in s.free + Feet(s) {
      if q !in s'.free {
        var a :| a in s'.procs && q in FootOf(s', a);
        if a != pid {
          StepOther(s, pid, s', a);
        }
        assert q in FootOf(s, a) || q in s.free;
      } else {
        assert q in FootOf(s, pid) || q in s.free;
      }
    }
    forall q | q in s.free + Feet(s) ensures q in s'.free + Feet(s') {
      if q !in s.free {
        var a :| a in s.procs && q in FootOf(s, a);
        if a != pid {
          StepOther(s, pid, s', a);
        }
        assert q in FootOf(s', a) || q in s'.free;
      } else {
        assert q in FootOf(s', pid) || q in s'.free;
      }
    }
    assert s'.free + Feet(s') == s.free + Feet(s);
    assert All(s') == s'.free + Feet(s') + s'.kern && All(s) == s.free + Feet(s) + s.kern;
  }

  /** The kernel's pages keep their contents. */
  lemma StepKernel(c: Config, s: State, pid: nat, s': State, q: nat)
    requires Inv(c, s) && Step(s, pid, s') && q in s.kern
    ensures q in s.m && q in s'.m && s'.m[q] == s.m[q]
  {
    assert pid in s.procs ==> NotFree(s, pid);
  }

  // ----- the kernel takes, writes or gives back pages of its own -----

  /** Pages move between the kernel and the free set only, and no page of a process is written. */
  ghost predicate KernelStep(s: State, s': State) {
    && s'.procs == s.procs && s'.own == s.own && Untouched(s.m, s'.m, s.kern + s.free)
    && s'.kern + s'.free == s.kern + s.free && s'.kern !! s'.free
  }

  lemma KernelFrame(c: Config, s: State, s': State, q: nat)
    requires Apart(s) && KernelStep(s, s') && q in s.procs && ProcAt(c, s, q)
    ensures ProcAt(c, s', q) && NotFree(s', q)
  {
    assert NotFree(s, q);
    ImageFrame(c, s.m, s'.m, s.procs[q], s.own[q], s.kern + s.free);
  }

  lemma KernelInv(c: Config, s: State, s': State)
    requires Inv(c, s) && KernelStep(s, s') && KernelOk(c, s')
    ensures Inv(c, s')
  {
    forall q {:trigger ProcAt(c, s', q)} | q in s'.procs ensures ProcAt(c, s', q) { KernelFrame(c, s, s', q); }
    forall q {:trigger NotFree(s', q)} | q in s'.procs ensures NotFree(s', q) { KernelFrame(c, s, s', q); }
    forall a, b {:trigger NotShared(s', a, b)} | a in s'.procs && b in s'.procs && a != b ensures NotShared(s', a, b) {
      assert NotShared(s, a, b);
    }
  }

  lemma KernelConserves(s: State, s': State)
    requires KernelStep(s, s')
    ensures All(s') == All(s)
  {
    assert forall pid :: FootOf(s', pid) == FootOf(s, pid);
    assert Feet(s') == Feet(s);
  }

  /** A process appears, on pages that were free. */
  lemma Created(s: State, pid: nat, p: Proc, o: Pages, s': State)
    requires s.own.Keys == s.procs.Keys && pid !in s.procs && s'.procs == s.procs[pid := p] && s'.own == s.own[pid := o]
    requires s'.kern == s.kern
    requires Untouched(s.m, s'.m, s.free) && Foot(p, o) !! s'.free && Foot(p, o) + s'.free == s.free
    ensures Step(s, pid, s')
  {
    assert FootOf(s, pid) == {} && FootOf(s', pid) == Foot(p, o);
  }

  /** No process appears, and only free pages were written. */
  lemma NotCreated(s: State, pid: nat, s': State)
    requires s.own.Keys == s.procs.Keys && pid !in s.procs && s'.procs == s.procs && s'.own == s.own
    requires s'.kern == s.kern
    requires Untouched(s.m, s'.m, s.free) && s'.free == s.free
    ensures Step(s, pid, s')
  {
    assert FootOf(s, pid) == {} == FootOf(s', pid);
  }

  /** A process changes, on its own pages and free ones. */
  lemma Changed(s: State, pid: nat, p: Proc, o: Pages, s': State)
    requires s.own.Keys == s.procs.Keys && pid in s.procs && s'.procs == s.procs[pid := p] && s'.own == s.own[pid := o]
    requires s'.kern == s.kern
    requires Untouched(s.m, s'.m, FootOf(s, pid) + s.free)
    requires Foot(p, o) !! s'.free && Foot(p, o) + s'.free == FootOf(s, pid) + s.free
    ensures Step(s, pid, s')
  {
    assert FootOf(s', pid) == Foot(p, o);
  }

  /** A process goes, and all its pages are free. */
  lemma Removed(s: State, pid: nat, s': State)
    requires s.own.Keys == s.procs.Keys && pid in s.procs && s'.procs == s.procs - {pid} && s'.own == s.own - {pid}
    requires s'.kern == s.kern
    requires Untouched(s.m, s'.m, FootOf(s, pid)) && s'.free == s.free + FootOf(s, pid)
    ensures Step(s, pid, s')
  {
    assert FootOf(s', pid) == {};
  }

  // ----- how many pages there can be -----

  lemma {:induction false} AlignedSize(a: set<nat>, n: nat)
    requires forall q :: q in a ==> q % PGSIZE == 0 && q < n * PGSIZE
    ensures |a| <= n
  {
    if n == 0 {
      assert a == {};
    } else {
      var last := (n - 1) * PGSIZE;
      forall q | q in a - {last} ensures q % PGSIZE == 0 && q < (n - 1) * PGSIZE { BelowLast(q, n); }
      AlignedSize(a - {last}, n - 1);
    }
  }

  lemma BelowLast(q: nat, n: nat)
    requires q % PGSIZE == 0 && q < n * PGSIZE && q != (n - 1) * PGSIZE
    ensures q < (n - 1) * PGSIZE
  {
    assert q == q / 4096 * 4096;
  }

  /** A process and the free pages together are far fewer than the pages of the address space. */
  lemma FewPages(c: Config, m: Memory, p: Proc, o: Pages, free: set<nat>)
    requires Image(c, m, p, o) && c.hi <= MAXMEM && PaSet(o.us) !! free
    requires forall q :: q in free ==> q % PGSIZE == 0 && q < c.hi
    ensures |o.us| + |free| < MAXVPN - 2
  {
    var a := PaSet(o.us) + free;
    forall q | q in a ensures q % PGSIZE == 0 && q < 0x200_0000 * PGSIZE {
      if q in PaSet(o.us) {
        assert q in o.held;
        var u :| u in o.us && u.pa == q;
        var k :| 0 <= k < |o.us| && o.us[k] == u;
        HoldsAt(m, p.root, 0, o.us, k, k);
        PaAligned(Lookup(m, p.root, k));
      }
    }
    AlignedSize(a, 0x200_0000);
    PaSetSize(o.us);
    assert |a| == |PaSet(o.us)| + |free|;
  }

  // ----- growing and shrinking -----

  lemma PaSetJoin(a: seq<UPage>, b: seq<UPage>)
    ensures PaSet(a + b) == PaSet(a) + PaSet(b)
  {
    forall q | q in PaSet(a + b) ensures q in PaSet(a) + PaSet(b) {
      var u :| u in a + b && u.pa == q;
      assert u in a || u in b;
    }
    forall q | q in PaSet(a) + PaSet(b) ensures q in PaSet(a + b) {
      var u :| (u in a || u in b) && u.pa == q;
      assert u in a + b;
    }
  }

  lemma DistinctJoin(a: seq<UPage>, b: seq<UPage>)
    requires DistinctPas(a) && DistinctPas(b) && PaSet(a) !! PaSet(b)
    ensures DistinctPas(a + b)
  {
    forall i, j | 0 <= i < j < |a + b| ensures (a + b)[i].pa != (a + b)[j].pa {
      if i < |a| <= j {
        assert a[i] in a && b[j - |a|] in b;
        assert a[i].pa in PaSet(a) && b[j - |a|].pa in PaSet(b);
      }
    }
  }

  /** New pages at the end of the old ones. */
  lemma ImageGrown(c: Config, s0: Space, s: Space, p: Proc, us: seq<UPage>, added: seq<UPage>, sz: nat)
    requires Image(c, s0.m, p, Of(s0.pos, us)) && PaSet(us) !! s0.f && s0.pos.Keys !! s0.f
    requires Filled(s0, s, p.root, |us|, added) && FullPages(added) && IsTree(s.m, p.root, s.pos)
    requires |us| + |added| == PageCount(sz) <= MAXVPN - 2 && Ranged(c, s0.f)
    ensures Image(c, s.m, p.(sz := sz), Of(s.pos, us + added))
    ensures Of(s.pos, us + added).held + s.f == Of(s0.pos, us).held + s0.f
    ensures PaSet(us + added) == PaSet(us) + PaSet(added)
  {
    PaSetJoin(us, added);
    DistinctJoin(us, added);
    assert Of(s.pos, us + added).held <= Of(s0.pos, us).held + s0.f;
    forall i | 0 <= i < |us + added| ensures Holds(s.m, p.root, 0 + i, (us + added)[i]) {
      if i < |us| {
        assert Holds(s0.m, p.root, 0 + i, us[i]);
        assert us[i] in us;
        assert us[i].pa in PaSet(us);
      } else {
        assert Holds(s.m, p.root, |us| + (i - |us|), added[i - |us|]);
      }
    }
  }

  /** An image whose tree grew by tables only. */
  lemma ImageKept(c: Config, s0: Space, s: Space, p: Proc, us: seq<UPage>)
    requires Image(c, s0.m, p, Of(s0.pos, us)) && PaSet(us) !! s0.f && s0.pos.Keys !! s0.f
    requires SameMap(s0.m, s.m, p.root) && Grown(s0.m, s0.f, s0.pos, s.m, s.f, s.pos) && IsTree(s.m, p.root, s.pos)
    requires Ranged(c, s0.f)
    ensures Image(c, s.m, p, Of(s.pos, us))
    ensures Of(s.pos, us).held + s.f == Of(s0.pos, us).held + s0.f
  {
    assert Of(s.pos, us).held <= Of(s0.pos, us).held + s0.f;
    forall i | 0 <= i < |us| ensures Holds(s.m, p.root, 0 + i, us[i]) {
      assert Holds(s0.m, p.root, 0 + i, us[i]);
      assert us[i] in us;
      assert us[i].pa in PaSet(us);
    }
  }

  /** The last pages of an image can be given to uvmdealloc. */
  lemma Suffix(c: Config, m: Memory, p: Proc, o: Pages, k: nat)
    requires Image(c, m, p, o) && k <= |o.us|
    ensures HoldsAll(m, p.root, k, o.us[k..]) && PaSet(o.us) == PaSet(o.us[..k]) + PaSet(o.us[k..])
    ensures PaSet(o.us[..k]) !! PaSet(o.us[k..])
  {
    forall i | 0 <= i < |o.us[k..]| ensures Holds(m, p.root, k + i, o.us[k..][i]) {
      assert Holds(m, p.root, 0 + (k + i), o.us[k + i]);
    }
    assert o.us[..k] + o.us[k..] == o.us;
    PaSetJoin(o.us[..k], o.us[k..]);
    forall q | q in PaSet(o.us[..k]) ensures q !in PaSet(o.us[k..]) {
      var u :| u in o.us[..k] && u.pa == q;
      var i :| 0 <= i < k && o.us[i] == u;
    }
  }

  /** The image that is left when the pages from k on are unmapped and freed. */
  lemma ImageShrunk(c: Config, m: Memory, m': Memory, p: Proc, o: Pages, k: nat, sz: nat)
    requires Image(c, m, p, o) && k == PageCount(sz) <= |o.us| && IsTree(m', p.root, o.pos)
    requires UnmapsRange(m, m', p.root, k, |o.us| - k) && Untouched(m, m', o.pos.Keys + PaSet(o.us[k..]))
    ensures Image(c, m', p.(sz := sz), Of(o.pos, o.us[..k]))
  {
    Suffix(c, m, p, o, k);
    assert Of(o.pos, o.us[..k]).held <= o.held;
    forall i | 0 <= i < k ensures Holds(m', p.root, 0 + i, o.us[..k][i]) {
      assert Holds(m, p.root, 0 + i, o.us[i]);
      assert o.us[i] in o.us[..k];
      assert o.us[i].pa in PaSet(o.us[..k]);
    }
  }

  // ----- stores to user memory -----

  lemma KernelNotUser(pa: nat)
    ensures !User(LeafPte(pa, 10)) && !User(LeafPte(pa, 6))
  {
    var q := pa / 4096;
    assert LeafPte(pa, 10) / 16 == 64 * q && LeafPte(pa, 6) / 16 == 64 * q;
    assert 64 * q == 2 * (32 * q);
  }

  /** A user page of an image is one of its pages. */
  lemma UserIsOwn(c: Config, m: Memory, p: Proc, o: Pages, v: nat)
    requires Image(c, m, p, o) && v < MAXVPN && IsValid(Lookup(m, p.root, v)) && User(Lookup(m, p.root, v))
    ensures v < |o.us| && Pte2Pa(Lookup(m, p.root, v)) == o.us[v].pa && o.us[v].pa in PaSet(o.us)
    ensures o.us[v].pa in m && m[o.us[v].pa] == Bytes(o.us[v].bytes) && |o.us[v].bytes| == PGSIZE
  {
    KernelNotUser(c.trampoline);
    KernelNotUser(p.trapframe);
    HoldsAt(m, p.root, 0, o.us, v, v);
    assert o.us[v] in o.us;
  }

  lemma ImageUserBytes(c: Config, m: Memory, p: Proc, o: Pages)
    requires Image(c, m, p, o)
    ensures UserBytes(m, p.root)
  {
    forall v {:trigger UserPage(m, p.root, v)} | 0 <= v < MAXVPN ensures UserPage(m, p.root, v) {
      if IsValid(Lookup(m, p.root, v)) && User(Lookup(m, p.root, v)) {
        UserIsOwn(c, m, p, o, v);
      }
    }
  }

  lemma {:induction false} StoreFrame(m: Memory, root: nat, va: nat, bs: seq<nat>, frames: set<nat>)
    requires forall a :: va <= a < va + |bs| ==> Pte2Pa(Lookup(m, root, PageOf(a))) in frames
    ensures Untouched(m, StoreBytes(m, root, va, bs), frames)
    decreases |bs|
  {
    if bs != [] {
      var m1 := StoreByte(m, root, PageOf(va), va % PGSIZE, bs[0]);
      assert SameTables(m, m1);
      forall a | va + 1 <= a < va + |bs| ensures Pte2Pa(Lookup(m1, root, PageOf(a))) in frames {
        SameTablesMap(m, m1, root, PageOf(a));
      }
      StoreFrame(m1, root, va + 1, bs[1..], frames);
    }
  }

  function BytesAt(m: Memory, pa: nat): seq<nat> {
    if pa in m && m[pa].Bytes? then m[pa].bytes else []
  }

  /** The same pages with the contents they have now. */
  function Reread(m: Memory, us: seq<UPage>): (r: seq<UPage>)
    ensures |r| == |us|
  {
    seq(|us|, i requires 0 <= i < |us| => us[i].(bytes := BytesAt(m, us[i].pa)))
  }

  lemma RereadSet(m: Memory, us: seq<UPage>)
    ensures PaSet(Reread(m, us)) == PaSet(us)
  {
    var r := Reread(m, us);
    forall q | q in PaSet(us) ensures q in PaSet(r) {
      var i :| 0 <= i < |us| && us[i].pa == q;
      assert r[i] in r;
    }
    forall q | q in PaSet(r) ensures q in PaSet(us) {
      var i :| 0 <= i < |us| && r[i].pa == q;
      assert us[i] in us;
    }
  }

  lemma ImageStored(c: Config, m: Memory, m': Memory, p: Proc, o: Pages)
    requires Image(c, m, p, o) && SameTables(m, m')
    ensures Image(c, m', p, Of(o.pos, Reread(m', o.us))) && PaSet(Reread(m', o.us)) == PaSet(o.us)
  {
    RereadSet(m', o.us);
    ImageUserBytes(c, m, p, o);
    StoreKeepsUser(m, m', p.root, o.pos);
    forall i | 0 <= i < |o.us|
      ensures Holds(m', p.root, 0 + i, Reread(m', o.us)[i]) && |BytesAt(m', o.us[i].pa)| == PGSIZE
    {
      assert Holds(m, p.root, 0 + i, o.us[i]);
    }
    assert Of(o.pos, Reread(m', o.us)).held == o.held;
  }

  // ----- the steps, from what the memory operations promise -----

  /** What a process has, and what it is apart from. */
  lemma Owner(c: Config, s: State, pid: nat)
    requires Inv(c, s) && pid in s.procs
    ensures pid in s.own
    ensures var p, o := s.procs[pid], s.own[pid];
            && ProcOk(c, s.m, p, o) && FootOf(s, pid) == o.pos.Keys + PaSet(o.us) + {p.trapframe}
            && o.pos.Keys !! s.free && PaSet(o.us) !! s.free && p.trapframe !in s.free + o.pos.Keys + PaSet(o.us)
  {
    assert ProcAt(c, s, pid) && NotFree(s, pid);
  }

  lemma MadeOk(c: Config, m: Memory, p: Proc, o: Pages, f0: set<nat>, f: set<nat>)
    requires Parted(f0, f, {p.trapframe}, o.pos.Keys, PaSet(o.us)) && Ranged(c, f0) && o == Of(o.pos, o.us)
    requires IsTree(m, p.root, o.pos) && HoldsAll(m, p.root, 0, o.us) && FullPages(o.us)
    requires |o.us| == PageCount(p.sz) <= MAXVPN - 2 && OnlyKernelPages(m, p.root, |o.us|, c.trampoline, p.trapframe)
    requires p.trapframe in m && p.trapframe % PGSIZE == 0
    ensures ProcOk(c, m, p, o) && Foot(p, o) !! f && Foot(p, o) + f == f0
  {
    assert o.held <= f0;
  }

  /** A new process on pages that were free. */
  lemma Made(c: Config, s: State, pid: nat, p: Proc, o: Pages, m: Memory, f: set<nat>) returns (s': State)
    requires Inv(c, s) && pid !in s.procs && Ranged(c, s.free) && Untouched(s.m, m, s.free)
    requires Parted(s.free, f, {p.trapframe}, o.pos.Keys, PaSet(o.us)) && o == Of(o.pos, o.us)
    requires IsTree(m, p.root, o.pos) && HoldsAll(m, p.root, 0, o.us) && FullPages(o.us)
    requires |o.us| == PageCount(p.sz) <= MAXVPN - 2 && OnlyKernelPages(m, p.root, |o.us|, c.trampoline, p.trapframe)
    requires p.trapframe in m && p.trapframe % PGSIZE == 0
    ensures s' == State(m, f, s.procs[pid := p], s.own[pid := o], s.kern) && Inv(c, s') && Step(s, pid, s')
  {
    s' := State(m, f, s.procs[pid := p], s.own[pid := o], s.kern);
    MadeOk(c, m, p, o, s.free, f);
    Created(s, pid, p, o, s');
    StepInv(c, s, pid, s');
  }

  lemma NotMade(c: Config, s: State, pid: nat, m: Memory) returns (s': State)
    requires Inv(c, s) && pid !in s.procs && Untouched(s.m, m, s.free)
    ensures s' == s.(m := m) && Inv(c, s') && Step(s, pid, s')
  {
    s' := s.(m := m);
    NotCreated(s, pid, s');
    StepInv(c, s, pid, s');
  }

  lemma Reaped(c: Config, s: State, pid: nat, m: Memory, f: set<nat>) returns (s': State)
    requires Inv(c, s) && pid in s.procs && Untouched(s.m, m, FootOf(s, pid)) && f == s.free + FootOf(s, pid)
    ensures s' == State(m, f, s.procs - {pid}, s.own - {pid}, s.kern) && Inv(c, s') && Step(s, pid, s')
  {
    s' := State(m, f, s.procs - {pid}, s.own - {pid}, s.kern);
    Removed(s, pid, s');
    StepInv(c, s, pid, s');
  }

  lemma CopyFull(us: seq<UPage>, ps: seq<UPage>)
    requires CopyOf(us, ps) && FullPages(ps)
    ensures FullPages(us)
  {
  }

  lemma ZeroedFull(us: seq<UPage>, flags: nat)
    requires Zeroed(us, flags)
    ensures FullPages(us)
  {
  }

  lemma VacantAbove(c: Config, m: Memory, p: Proc, o: Pages, n: nat)
    requires Image(c, m, p, o) && |o.us| + n <= MAXVPN - 2
    ensures Vacant(m, p.root, |o.us|, n)
  {
  }

  /** A process whose image changed on its own pages and free ones. */
  lemma Remade(c: Config, s: State, pid: nat, p: Proc, o: Pages, m: Memory, f: set<nat>) returns (s': State)
    requires Inv(c, s) && pid in s.procs && pid in s.own && Image(c, m, p, o) && p.trapframe == s.procs[pid].trapframe
    requires o.held !! f && o.held + f == s.own[pid].held + s.free && Untouched(s.m, m, s.own[pid].held + s.free)
    ensures s' == State(m, f, s.procs[pid := p], s.own[pid := o], s.kern) && Inv(c, s') && Step(s, pid, s')
  {
    s' := State(m, f, s.procs[pid := p], s.own[pid := o], s.kern);
    Owner(c, s, pid);
    Changed(s, pid, p, o, s');
    StepInv(c, s, pid, s');
  }

  /** Where a store through the image's page table can land. */
  lemma StoredFrame(c: Config, m: Memory, m': Memory, p: Proc, o: Pages, va: nat, src: seq<nat>, k: nat)
    requires Image(c, m, p, o) && Stored(m, m', p.root, va, src, k)
    ensures Untouched(m, m', PaSet(o.us)) && SameTables(m, m')
  {
    forall a | va <= a < va + |src[..k]| ensures Pte2Pa(Lookup(m, p.root, PageOf(a))) in PaSet(o.us) {
      assert CanStore(m, p.root, PageOf(a));
      UserIsOwn(c, m, p, o, PageOf(a));
    }
    StoreFrame(m, p.root, va, src[..k], PaSet(o.us));
    StoreKeepsTables(m, p.root, va, src[..k]);
  }

  lemma FirstImage(c: Config, s0: Space, s: Space, p: Proc, ok: bool, u: UPage)
    requires Image(c, s0.m, p, Of(s0.pos, [])) && p.sz == 0 && s0.pos.Keys !! s0.f && Ranged(c, s0.f)
    requires Filled(s0, s, p.root, 0, if ok then [u] else []) && IsTree(s.m, p.root, s.pos)
    requires (ok ==> |u.bytes| == PGSIZE)
    ensures var o := Of(s.pos, if ok then [u] else []);
            Image(c, s.m, p.(sz := if ok then PGSIZE else 0), o) && o.held + s.f == s0.pos.Keys + s0.f
  {
    var added := if ok then [u] else [];
    assert PaSet([]) == {} && [] + added == added;
    ImageGrown(c, s0, s, p, [], added, if ok then PGSIZE else 0);
  }

  /**
    growproc's outcome: it fails only to grow, keeping size and pages, and only if no more pages are left than were
    asked for; it grows by zeroed pages, shrinks to the pages of the new size, and ignores a size below zero.
   */
  ghost predicate Resized(sz: nat, n: int, us: seq<UPage>, r: int, sz': nat, us': seq<UPage>, left: nat) {
    && (r == 0 || r == -1)
    && (r == -1 ==> n > 0 && sz' == sz && us' == us && left <= PageCount(sz + n) - PageCount(sz))
    && (r == 0 && n >= 0 ==> sz' == sz + n && us <= us' && ZeroedFrom(us', |us|, 23))
    && (n < 0 ==> r == 0 && sz' == (if sz + n < 0 then sz else sz + n) && us' <= us && |us'| == PageCount(sz'))
  }

  ghost predicate ZeroedFrom(us: seq<UPage>, k: nat, flags: nat) {
    forall i :: k <= i < |us| ==> us[i].flags == flags && us[i].bytes == ZeroPage()
  }

  lemma Still(c: Config, s: State, pid: nat)
    requires Inv(c, s) && pid in s.procs
    ensures Step(s, pid, s) && pid in s.own
    ensures Resized(s.procs[pid].sz, 0, s.own[pid].us, 0, s.procs[pid].sz, s.own[pid].us, |s.free|)
  {
    Owner(c, s, pid);
  }

  lemma ResizedUp(sz: nat, n: nat, us: seq<UPage>, ok: bool, us': seq<UPage>, left: nat)
    requires n > 0 && (ok ==> us <= us' && ZeroedFrom(us', |us|, 23))
    requires !ok ==> us' == us && left <= PageCount(sz + n) - PageCount(sz)
    ensures Resized(sz, n, us, if ok then 0 else -1, if ok then sz + n else sz, us', left)
  {
  }

  /** A sum of a size and an int as a 64-bit size. */
  function Wrapped(n: int): nat
    requires -0x8000_0000 <= n
  {
    if n >= 0 then n else n + 0x1_0000_0000_0000_0000
  }

  lemma ResizedDown(sz: nat, n: int, us: seq<UPage>, sz': nat, us': seq<UPage>, left: nat)
    requires -0x8000_0000 <= n < 0 && sz' == (if Wrapped(sz + n) < sz then Wrapped(sz + n) else sz)
    requires us' <= us && |us'| == PageCount(sz')
    ensures Resized(sz, n, us, 0, sz', us', left)
  {
  }

  /** The address space has room for all the pages uvmalloc can get. */
  lemma Room(c: Config, m: Memory, p: Proc, o: Pages, free: set<nat>, newsz: nat)
    requires Image(c, m, p, o) && c.hi <= MAXMEM && PaSet(o.us) !! free && p.sz <= newsz
    requires forall q :: q in free ==> q % PGSIZE == 0 && q < c.hi
    ensures PageCount(p.sz) == |o.us| <= PageCount(newsz)
    ensures var n := Least(PageCount(newsz) - |o.us|, |free| + 1);
            |o.us| + |free| < MAXVPN - 2 && |o.us| + n <= MAXVPN - 2 && Vacant(m, p.root, |o.us|, n)
  {
    FewPages(c, m, p, o, free);
    PageCountMonotone(p.sz, newsz);
    VacantAbove(c, m, p, o, Least(PageCount(newsz) - |o.us|, |free| + 1));
  }

  /** What uvmalloc's outcome means for the image. */
  lemma Extended(c: Config, s0: Space, s: Space, p: Proc, us: seq<UPage>, added: seq<UPage>, newsz: nat, xperm: nat,
                 ok: bool)
    requires Image(c, s0.m, p, Of(s0.pos, us)) && PaSet(us) !! s0.f && s0.pos.Keys !! s0.f && Ranged(c, s0.f)
    requires IsTree(s.m, p.root, s.pos) && s.pos.Keys !! s.f && |us| + |s0.f| < MAXVPN - 2
    requires if ok then
               && Filled(s0, s, p.root, |us|, added) && Zeroed(added, 19 + xperm) && PageCount(newsz) == |us| + |added|
             else
               SameMap(s0.m, s.m, p.root) && Grown(s0.m, s0.f, s0.pos, s.m, s.f, s.pos)
    ensures var o := Of(s.pos, if ok then us + added else us);
            && Image(c, s.m, if ok then p.(sz := newsz) else p, o)
            && o.held !! s.f && o.held + s.f == Of(s0.pos, us).held + s0.f && us <= o.us
            && (ok ==> ZeroedFrom(o.us, |us|, 19 + xperm))
    ensures Untouched(s0.m, s.m, Of(s0.pos, us).held + s0.f)
  {
    if ok {
      ZeroedFull(added, 19 + xperm);
      FilledSize(s0, s, p.root, |us|, added);
      ImageGrown(c, s0, s, p, us, added, newsz);
    } else {
      ImageKept(c, s0, s, p, us);
    }
  }

  // ----- exec -----

  /** Every page but the k-th as it was, and that one with the user bit cleared. */
  function Guarded(us: seq<UPage>, k: nat): (r: seq<UPage>)
    requires k < |us|
    ensures |r| == |us|
  {
    us[k := us[k].(flags := us[k].flags - if User(us[k].flags) && us[k].flags >= 16 then 16 else 0)]
  }

  lemma GuardedSet(us: seq<UPage>, k: nat)
    requires k < |us|
    ensures PaSet(Guarded(us, k)) == PaSet(us)
  {
    var r := Guarded(us, k);
    forall q | q in PaSet(us) ensures q in PaSet(r) {
      var i :| 0 <= i < |us| && us[i].pa == q;
      assert r[i] in r;
    }
    forall q | q in PaSet(r) ensures q in PaSet(us) {
      var i :| 0 <= i < |us| && r[i].pa == q;
      assert us[i] in us;
    }
  }

  lemma ImageGuarded(c: Config, m: Memory, m': Memory, p: Proc, o: Pages, k: nat)
    requires Image(c, m, p, o) && k < |o.us| && IsTree(m', p.root, o.pos) && Readable(Lookup(m, p.root, k))
    requires SetsPage(m, m', p.root, k, WithoutUser(Lookup(m, p.root, k))) && Untouched(m, m', o.pos.Keys)
    ensures Image(c, m', p, o.(us := Guarded(o.us, k)))
  {
    var us := Guarded(o.us, k);
    GuardedSet(o.us, k);
    HoldsAt(m, p.root, 0, o.us, k, k);
    WithoutUserFields(Lookup(m, p.root, k));
    FlagBits(Lookup(m, p.root, k));
    forall i | 0 <= i < |us| ensures Holds(m', p.root, 0 + i, us[i]) {
      assert Holds(m, p.root, 0 + i, o.us[i]);
      assert o.us[i] in o.us;
      assert o.us[i].pa in PaSet(o.us);
    }
  }

  lemma ImageRounded(c: Config, m: Memory, p: Proc, o: Pages)
    requires Image(c, m, p, o)
    ensures Image(c, m, p.(sz := PgRoundUp(p.sz)), o)
  {
    PageCountRounded(PageCount(p.sz));
  }

  /** An image under construction, on pages that were free in memory m0 with free set f0; no other page was written. */
  ghost predicate Building(c: Config, m0: Memory, f0: set<nat>, m: Memory, f: set<nat>, p: Proc, o: Pages) {
    Image(c, m, p, o) && o.held !! f && o.held + f == f0 && Untouched(m0, m, f0)
  }

  lemma BuildingNext(c: Config, m0: Memory, f0: set<nat>, m: Memory, f: set<nat>, p: Proc, o: Pages,
                     m': Memory, f': set<nat>, p': Proc, o': Pages)
    requires Building(c, m0, f0, m, f, p, o) && Image(c, m', p', o')
    requires o'.held !! f' && o'.held + f' == o.held + f && Untouched(m, m', o.held + f)
    ensures Building(c, m0, f0, m', f', p', o')
  {
  }

  /** One program header's part in exec: the bytes of the file, where they go, where the segment ends, permissions. */
  datatype Segment = Segment(vaddr: nat, data: seq<nat>, end: nat, perm: nat)

  /** What exec's own tests of a program header and flags2perm leave. */
  predicate GoodSegment(g: Segment) {
    g.vaddr % PGSIZE == 0 && g.vaddr + |g.data| <= g.end && g.perm < 16 && g.perm % 4 == 0
  }

  predicate Segments(segs: seq<Segment>) {
    forall i :: 0 <= i < |segs| ==> GoodSegment(segs[i])
  }

  /** The size that uvmalloc leaves after the segments in turn: it never shrinks. */
  function SegmentsEnd(segs: seq<Segment>): nat {
    if segs == [] then 0
    else
      var sz, end := SegmentsEnd(segs[..|segs| - 1]), segs[|segs| - 1].end;
      if end < sz then sz else end
  }

  /** The size of an image with its stack and the guard page below it. */
  function ImageSize(segs: seq<Segment>): nat { PgRoundUp(SegmentsEnd(segs)) + 2 * PGSIZE }

  /** Every page may be used by the user. */
  ghost predicate AllUser(us: seq<UPage>) {
    forall i :: 0 <= i < |us| ==> User(us[i].flags)
  }

  lemma UserPerm(perm: nat)
    requires perm < 16 && perm % 4 == 0
    ensures User(19 + perm)
  {
  }

  lemma AllUserMore(us: seq<UPage>, us': seq<UPage>, perm: nat)
    requires AllUser(us) && us <= us' && ZeroedFrom(us', |us|, 19 + perm) && perm < 16 && perm % 4 == 0
    ensures AllUser(us')
  {
    UserPerm(perm);
  }

  /** loadseg finds the page of every address below the size. */
  lemma UserLoads(c: Config, m: Memory, p: Proc, o: Pages, v: nat)
    requires Image(c, m, p, o) && AllUser(o.us) && v < |o.us| && 0 < c.lo
    ensures CanLoad(m, p.root, v) && Pte2Pa(Lookup(m, p.root, v)) == o.us[v].pa
    ensures o.us[v].pa in m && m[o.us[v].pa] == Bytes(o.us[v].bytes) && |o.us[v].bytes| == PGSIZE
  {
    HoldsAt(m, p.root, 0, o.us, v, v);
    FlagBits(Lookup(m, p.root, v));
    assert o.us[v] in o.us;
    assert o.us[v].pa in PaSet(o.us);
  }

  /** Stores to the first n pages of an image land in its own pages. */
  lemma StoresInside(c: Config, m: Memory, p: Proc, o: Pages, va: nat, bs: seq<nat>)
    requires Image(c, m, p, o) && PageCount(va + |bs|) <= |o.us|
    ensures var m' := StoreBytes(m, p.root, va, bs);
            && Untouched(m, m', PaSet(o.us)) && SameTables(m, m')
            && Image(c, m', p, Of(o.pos, Reread(m', o.us))) && PaSet(Reread(m', o.us)) == PaSet(o.us)
  {
    forall a | va <= a < va + |bs| ensures Pte2Pa(Lookup(m, p.root, PageOf(a))) in PaSet(o.us) {
      PageBelow(a, va + |bs|);
      HoldsAt(m, p.root, 0, o.us, PageOf(a), PageOf(a));
      assert o.us[PageOf(a)] in o.us;
    }
    StoreFrame(m, p.root, va, bs, PaSet(o.us));
    StoreKeepsTables(m, p.root, va, bs);
    ImageStored(c, m, StoreBytes(m, p.root, va, bs), p, o);
  }

  lemma PageBelow(a: nat, end: nat)
    requires a < end
    ensures PageOf(a) < PageCount(end)
  {
  }

  lemma StackPages(sz: nat, n: nat, n': nat)
    requires n == PageCount(sz) && n' == PageCount(PgRoundUp(sz) + 2 * PGSIZE)
    ensures n' == n + 2 && (PgRoundUp(sz) + 2 * PGSIZE - 2 * PGSIZE) / PGSIZE == n
  {
    PageCountRounded(n);
    PageCountRounded(n + 2);
  }

  /** No page is both free and in use, and none is owned twice. */
  lemma OneOwner(c: Config, s: State)
    requires Inv(c, s)
    ensures s.kern !! s.free
    ensures forall a :: a in s.procs ==> FootOf(s, a) !! s.free && FootOf(s, a) !! s.kern
    ensures forall a, b :: a in s.procs && b in s.procs && a != b ==> FootOf(s, a) !! FootOf(s, b)
  {
    assert forall a :: a in s.procs ==> NotFree(s, a);
    assert forall a, b :: a in s.procs && b in s.procs && a != b ==> NotShared(s, a, b);
  }

  lemma NoFeet(s: State)
    requires s.procs == map[]
    ensures Feet(s) == {}
  {
  }

  lemma Widen(m: Memory, m': Memory, a: set<nat>, b: set<nat>)
    requires Untouched(m, m', a) && a <= b
    ensures Untouched(m, m', b)
  {
  }

  /** loadseg after i bytes: the image with the contents it has now. */
  lemma LoadSoFar(c: Config, m0: Memory, m: Memory, p: Proc, o: Pages, vaddr: nat, data: seq<nat>, i: nat)
    returns (o': Pages)
    requires Image(c, m0, p, o) && AllUser(o.us) && i <= |data| && PageCount(vaddr + |data|) <= |o.us|
    requires m == StoreBytes(m0, p.root, vaddr, data[..i])
    ensures Image(c, m, p, o') && AllUser(o'.us) && |o'.us| == |o.us| && o'.held == o.held
  {
    PageCountMonotone(vaddr + i, vaddr + |data|);
    StoresInside(c, m0, p, o, vaddr, data[..i]);
    o' := Of(o.pos, Reread(m, o.us));
  }

  /** Where the page's worth of loadseg that begins at i ends. */
  function PieceEnd(i: nat, len: nat): (e: nat)
    requires i < len && i % PGSIZE == 0
    ensures i < e <= len && e <= i + PGSIZE && (e < len ==> e % PGSIZE == 0)
  {
    if len - i < PGSIZE then len else i + PGSIZE
  }

  lemma LoadAt(vaddr: nat, i: nat, len: nat, v: nat)
    requires vaddr % PGSIZE == 0 && i % PGSIZE == 0 && i < len && v == (vaddr + i) / PGSIZE
    ensures v * PGSIZE == vaddr + i && v < PageCount(vaddr + len)
  {
    PageBelow(vaddr + i, vaddr + len);
  }

  lemma LoadNext(m0: Memory, m: Memory, m': Memory, root: nat, vaddr: nat, data: seq<nat>, i: nat, i': nat, v: nat,
                 c: seq<nat>)
    requires i <= i' <= |data| && c == data[i..i'] && v * PGSIZE == vaddr + i
    requires m == StoreBytes(m0, root, vaddr, data[..i]) && m' == StoreBytes(m, root, v * PGSIZE, c)
    ensures m' == StoreBytes(m0, root, vaddr, data[..i'])
  {
    assert data[..i'] == data[..i] + c;
    StoreAppend(m0, root, vaddr, data[..i], c);
  }
}
