/**
  The memory image that exec builds, byte by byte: what the program's segments and the arguments write, in order, over
  pages of zeros.
 */
module ExecSpec {
  import opened PageTable
  import opened VmSpec
  import opened CopySpec
  import opened TableCount
  import opened ProcPages

  const MAXARG := 32

  /** The size of an address in user memory. */
  const PTRSIZE := 8

  // ----- bytes of an image -----

  /** Byte a of user memory. */
  function ByteAt(us: seq<UPage>, a: nat): nat {
    var v, o := a / PGSIZE, a % PGSIZE;
    if v < |us| && o < |us[v].bytes| then us[v].bytes[o] else 0
  }

  ghost predicate WroteAt(us: seq<UPage>, us': seq<UPage>, va: nat, bs: seq<nat>, a: nat) {
    PageOf(a) < |us| ==> ByteAt(us', a) == if va <= a < va + |bs| then bs[a - va] else ByteAt(us, a)
  }

  /** The bytes bs stand at va, every other byte and all flags are as before. */
  ghost predicate Wrote(us: seq<UPage>, us': seq<UPage>, va: nat, bs: seq<nat>) {
    && |us'| == |us| && (forall i :: 0 <= i < |us| ==> us'[i].flags == us[i].flags)
    && forall a: nat {:trigger WroteAt(us, us', va, bs, a)} :: WroteAt(us, us', va, bs, a)
  }

  type Write = (nat, seq<nat>)

  predicate Covers(w: Write, a: nat) { w.0 <= a < w.0 + |w.1| }

  /** What the last of the writes that reaches a byte left there; zero if none does. */
  function Overlay(ws: seq<Write>, a: nat): nat {
    if ws == [] then 0
    else
      var w := ws[|ws| - 1];
      if Covers(w, a) then w.1[a - w.0] else Overlay(ws[..|ws| - 1], a)
  }

  ghost predicate ShowsAt(us: seq<UPage>, ws: seq<Write>, a: nat) {
    PageOf(a) < |us| ==> ByteAt(us, a) == Overlay(ws, a)
  }

  /** User memory is what the writes made of pages of zeros. */
  ghost predicate Shows(us: seq<UPage>, ws: seq<Write>) {
    forall a: nat {:trigger ShowsAt(us, ws, a)} :: ShowsAt(us, ws, a)
  }

  lemma ShowsNothing()
    ensures Shows([], [])
  {}

  lemma ShowsWrite(us: seq<UPage>, us': seq<UPage>, ws: seq<Write>, va: nat, bs: seq<nat>)
    requires Shows(us, ws) && Wrote(us, us', va, bs)
    ensures Shows(us', ws + [(va, bs)])
  {
    var ws' := ws + [(va, bs)];
    assert ws'[..|ws'| - 1] == ws;
    forall a: nat
      ensures ShowsAt(us', ws', a)
    {
      assert ShowsAt(us, ws, a) && WroteAt(us, us', va, bs, a);
    }
  }

  predicate Below(ws: seq<Write>, end: nat) { forall i :: 0 <= i < |ws| ==> ws[i].0 + |ws[i].1| <= end }

  /** A byte that nothing was written to is zero. */
  lemma {:induction false} Unwritten(ws: seq<Write>, a: nat)
    requires forall j :: 0 <= j < |ws| ==> !Covers(ws[j], a)
    ensures Overlay(ws, a) == 0
    decreases |ws|
  {
    if ws != [] {
      assert !Covers(ws[|ws| - 1], a);
      Unwritten(ws[..|ws| - 1], a);
    }
  }

  lemma PageStart(a: nat, n: nat)
    requires n <= PageOf(a)
    ensures n * PGSIZE <= a
  {}

  /** New pages of zeros behind all that was written. */
  lemma ShowsMore(us: seq<UPage>, us': seq<UPage>, ws: seq<Write>, flags: nat)
    requires Shows(us, ws) && us <= us' && ZeroedFrom(us', |us|, flags) && Below(ws, |us| * PGSIZE)
    ensures Shows(us', ws)
  {
    forall a: nat
      ensures ShowsAt(us', ws, a)
    {
      assert ShowsAt(us, ws, a);
      if |us| <= PageOf(a) < |us'| {
        PageStart(a, |us|);
        Unwritten(ws, a);
        assert us'[PageOf(a)].bytes == ZeroPage();
      }
    }
  }

  lemma ShowsGuarded(us: seq<UPage>, k: nat, ws: seq<Write>)
    requires Shows(us, ws) && k < |us|
    ensures Shows(Guarded(us, k), ws)
  {
    forall a: nat
      ensures ShowsAt(Guarded(us, k), ws, a)
    {
      assert ShowsAt(us, ws, a);
    }
  }

  // ----- stores through the page table -----

  lemma RereadTwice(m: Memory, m1: Memory, us: seq<UPage>)
    ensures Reread(m, Reread(m1, us)) == Reread(m, us)
  {}

  lemma ByteStored(c: Config, m: Memory, p: Proc, o: Pages, va: nat, b: nat)
    requires Image(c, m, p, o) && PageOf(va) < |o.us|
    ensures Wrote(o.us, Reread(StoreByte(m, p.root, PageOf(va), va % PGSIZE, b), o.us), va, [b])
  {
    var m1 := StoreByte(m, p.root, PageOf(va), va % PGSIZE, b);
    var us1 := Reread(m1, o.us);
    HoldsAt(m, p.root, 0, o.us, PageOf(va), PageOf(va));
    forall a: nat
      ensures WroteAt(o.us, us1, va, [b], a)
    {
      if PageOf(a) < |o.us| {
        HoldsAt(m, p.root, 0, o.us, PageOf(a), PageOf(a));
        if PageOf(a) == PageOf(va) && a % PGSIZE == va % PGSIZE {
          assert a == va;
        }
      }
    }
  }

  lemma WroteTwice(us: seq<UPage>, us1: seq<UPage>, us2: seq<UPage>, va: nat, bs: seq<nat>)
    requires bs != [] && Wrote(us, us1, va, [bs[0]]) && Wrote(us1, us2, va + 1, bs[1..])
    ensures Wrote(us, us2, va, bs)
  {
    forall a: nat
      ensures WroteAt(us, us2, va, bs, a)
    {
      assert WroteAt(us, us1, va, [bs[0]], a) && WroteAt(us1, us2, va + 1, bs[1..], a);
    }
  }

  lemma WroteNone(us: seq<UPage>, va: nat)
    ensures Wrote(us, us, va, [])
  {
    forall a: nat
      ensures WroteAt(us, us, va, [], a)
    {}
  }

  lemma RereadSame(c: Config, m: Memory, p: Proc, o: Pages)
    requires Image(c, m, p, o)
    ensures Reread(m, o.us) == o.us
  {
    forall i | 0 <= i < |o.us|
      ensures Reread(m, o.us)[i] == o.us[i]
    {
      HoldsAt(m, p.root, 0, o.us, i, i);
    }
  }

  lemma ByteStoredImage(c: Config, m: Memory, p: Proc, o: Pages, va: nat, b: nat) returns (m1: Memory, o1: Pages)
    requires Image(c, m, p, o) && PageOf(va) < |o.us|
    ensures m1 == StoreByte(m, p.root, va / PGSIZE, va % PGSIZE, b) && o1.us == Reread(m1, o.us)
    ensures Image(c, m1, p, o1) && Wrote(o.us, o1.us, va, [b])
  {
    m1 := StoreByte(m, p.root, PageOf(va), va % PGSIZE, b);
    o1 := Of(o.pos, Reread(m1, o.us));
    ByteStored(c, m, p, o, va, b);
    assert SameTables(m, m1);
    ImageStored(c, m, m1, p, o);
  }

  /** Bytes stored through the page table of an image are the bytes of the image at those addresses. */
  lemma {:induction false} BytesStored(c: Config, m: Memory, p: Proc, o: Pages, va: nat, bs: seq<nat>)
    requires Image(c, m, p, o) && PageCount(va + |bs|) <= |o.us|
    ensures Wrote(o.us, Reread(StoreBytes(m, p.root, va, bs), o.us), va, bs)
    decreases |bs|
  {
    if bs == [] {
      RereadSame(c, m, p, o);
      WroteNone(o.us, va);
    } else {
      PageBelow(va, va + |bs|);
      var m1, o1 := ByteStoredImage(c, m, p, o, va, bs[0]);
      BytesStored(c, m1, p, o1, va + 1, bs[1..]);
      var m2 := StoreBytes(m1, p.root, va + 1, bs[1..]);
      RereadTwice(m2, m1, o.us);
      WroteTwice(o.us, o1.us, Reread(m2, o.us), va, bs);
    }
  }

  ghost predicate LoadsAt(m: Memory, root: nat, size: nat, ws: seq<Write>, a: nat) {
    a < size ==> LoadByte(m, root, a) == Overlay(ws, a)
  }

  /** Loads from the first size bytes give what the writes left. */
  ghost predicate LoadsAs(m: Memory, root: nat, size: nat, ws: seq<Write>) {
    forall a: nat {:trigger LoadsAt(m, root, size, ws, a)} :: LoadsAt(m, root, size, ws, a)
  }

  /** A load through the page table of an image gives the byte of the image. */
  lemma ShowsLoads(c: Config, m: Memory, p: Proc, o: Pages, ws: seq<Write>)
    requires Image(c, m, p, o) && Shows(o.us, ws)
    ensures LoadsAs(m, p.root, p.sz, ws)
  {
    forall a: nat
      ensures LoadsAt(m, p.root, p.sz, ws, a)
    {
      if a < p.sz {
        PageBelow(a, p.sz);
        HoldsAt(m, p.root, 0, o.us, PageOf(a), PageOf(a));
        assert ShowsAt(o.us, ws, a);
      }
    }
  }

  // ----- segments -----

  /** What loadseg writes, segment after segment. */
  function SegmentWrites(segs: seq<Segment>): seq<Write> {
    seq(|segs|, i requires 0 <= i < |segs| => (segs[i].vaddr, segs[i].data))
  }

  lemma {:induction false} SegmentsBelow(segs: seq<Segment>)
    requires Segments(segs)
    ensures Below(SegmentWrites(segs), SegmentsEnd(segs))
  {
    if segs != [] {
      var init := segs[..|segs| - 1];
      SegmentsBelow(init);
      assert SegmentWrites(segs) == SegmentWrites(init) + [(segs[|segs| - 1].vaddr, segs[|segs| - 1].data)];
    }
  }

  // ----- arguments -----

  function Aligned(a: int): int { a - a % 16 }

  lemma AlignedDown(a: int)
    ensures Aligned(a) <= a && Aligned(a) % 16 == 0
  {}

  /** Where the last of the strings begins when each goes below the one before it, on a boundary of 16 bytes. */
  function StringsEnd(top: int, args: seq<seq<nat>>): int {
    if args == [] then top
    else Aligned(StringsEnd(top, args[..|args| - 1]) - (|args[|args| - 1]| + 1))
  }

  lemma StringsNext(top: int, args: seq<seq<nat>>)
    requires args != []
    ensures StringsEnd(top, args) + |args[|args| - 1]| < StringsEnd(top, args[..|args| - 1])
  {
    AlignedDown(StringsEnd(top, args[..|args| - 1]) - (|args[|args| - 1]| + 1));
  }

  /** Where argv, the array of their addresses, goes. */
  function ArrayAt(top: int, args: seq<seq<nat>>): int { Aligned(StringsEnd(top, args) - (|args| + 1) * 8) }

  lemma ArrayBelow(top: int, args: seq<seq<nat>>)
    ensures ArrayAt(top, args) + 8 * |args| + 8 <= StringsEnd(top, args) && ArrayAt(top, args) % 16 == 0
  {
    AlignedDown(StringsEnd(top, args) - (|args| + 1) * 8);
  }

  /** The arguments are not too many and leave the stack page at most full. */
  predicate ArgsFit(top: int, args: seq<seq<nat>>) { |args| < MAXARG && top - PGSIZE <= ArrayAt(top, args) }

  /** The k lowest bytes of a number, the lowest first. */
  function Word(x: int, k: nat): (bs: seq<nat>)
    ensures |bs| == k
    decreases k
  {
    if k == 0 then [] else [x % 256] + Word(x / 256, k - 1)
  }

  /** The addresses of the strings, 8 bytes each. */
  function Addresses(top: int, args: seq<seq<nat>>): (bs: seq<nat>)
    ensures |bs| == 8 * |args|
  {
    if args == [] then [] else Addresses(top, args[..|args| - 1]) + Word(StringsEnd(top, args), PTRSIZE)
  }

  function StringWrites(top: int, args: seq<seq<nat>>): seq<Write>
    requires 0 <= StringsEnd(top, args)
  {
    if args == [] then []
    else
      StringsNext(top, args);
      StringWrites(top, args[..|args| - 1]) + [(StringsEnd(top, args), args[|args| - 1] + [0])]
  }

  /** argv as it is written: the addresses of the strings, and a zero. */
  function ArrayWrite(top: int, args: seq<seq<nat>>): (w: Write)
    requires 0 <= ArrayAt(top, args)
    ensures w.0 == ArrayAt(top, args) && |w.1| == 8 * |args| + 8
  {
    (ArrayAt(top, args), Addresses(top, args) + Word(0, PTRSIZE))
  }

  /** What exec writes on the stack: the strings, then their addresses and a zero. */
  function ArgWrites(top: int, args: seq<seq<nat>>): seq<Write>
    requires 0 <= ArrayAt(top, args)
  {
    ArrayBelow(top, args);
    StringWrites(top, args) + [ArrayWrite(top, args)]
  }

  lemma {:induction false} StringsDown(top: int, args: seq<seq<nat>>, i: nat)
    requires i <= |args|
    ensures StringsEnd(top, args) <= StringsEnd(top, args[..i])
    decreases |args|
  {
    if i == |args| {
      assert args[..i] == args;
    } else {
      assert args[..|args| - 1][..i] == args[..i];
      StringsNext(top, args);
      StringsDown(top, args[..|args| - 1], i);
    }
  }

  // ----- what the new program finds -----

  lemma {:induction false} OverlayIs(ws: seq<Write>, i: nat, a: nat)
    requires i < |ws| && Covers(ws[i], a) && forall j :: i < j < |ws| ==> !Covers(ws[j], a)
    ensures Overlay(ws, a) == ws[i].1[a - ws[i].0]
    decreases |ws|
  {
    if i < |ws| - 1 {
      assert !Covers(ws[|ws| - 1], a);
      OverlayIs(ws[..|ws| - 1], i, a);
    }
  }

  lemma {:induction false} StringAt(top: int, args: seq<seq<nat>>, i: nat)
    requires 0 <= StringsEnd(top, args) && i < |args|
    ensures |StringWrites(top, args)| == |args| && StringsEnd(top, args) <= StringsEnd(top, args[..i + 1])
    ensures StringWrites(top, args)[i] == (StringsEnd(top, args[..i + 1]), args[i] + [0])
    decreases |args|
  {
    StringsDown(top, args, i + 1);
    StringsNext(top, args);
    var n := |args| - 1;
    if n > 0 {
      StringAt(top, args[..n], if i < n then i else 0);
    }
    if i < n {
      assert args[..n][..i + 1] == args[..i + 1];
    } else {
      assert args[..i + 1] == args;
    }
  }

  /** The string of argument j lies below that of argument i. */
  lemma StringsApart(top: int, args: seq<seq<nat>>, i: nat, j: nat)
    requires i < j < |args|
    ensures StringsEnd(top, args[..j + 1]) + |args[j]| < StringsEnd(top, args[..i + 1])
  {
    var upto := args[..j + 1];
    StringsNext(top, upto);
    assert upto[..j] == args[..j] && args[..j][..i + 1] == args[..i + 1];
    StringsDown(top, args[..j], i + 1);
  }

  lemma JoinedAt(init: seq<nat>, w: seq<nat>, n: nat, i: nat)
    requires |init| == 8 * n && |w| >= 8 && i <= n
    ensures (init + w)[8 * i..8 * i + 8] == if i < n then init[8 * i..8 * i + 8] else w[..8]
  {}

  lemma {:induction false} AddressIn(top: int, args: seq<seq<nat>>, i: nat)
    requires i < |args|
    ensures Addresses(top, args)[8 * i..8 * i + 8] == Word(StringsEnd(top, args[..i + 1]), PTRSIZE)
    decreases |args|
  {
    var n := |args| - 1;
    JoinedAt(Addresses(top, args[..n]), Word(StringsEnd(top, args), PTRSIZE), n, i);
    if i < n {
      AddressIn(top, args[..n], i);
      assert args[..n][..i + 1] == args[..i + 1];
    } else {
      assert args[..i + 1] == args;
    }
  }

  lemma AddressAt(top: int, args: seq<seq<nat>>, i: nat)
    requires i < |args| && 0 <= ArrayAt(top, args)
    ensures ArrayWrite(top, args).1[8 * i..8 * i + 8] == Word(StringsEnd(top, args[..i + 1]), PTRSIZE)
  {
    JoinedAt(Addresses(top, args), Word(0, PTRSIZE), |args|, i);
    AddressIn(top, args, i);
  }

  /** No later string is written over string i. */
  lemma StringLast(top: int, args: seq<seq<nat>>, i: nat, j: nat, a: nat)
    requires 0 <= StringsEnd(top, args) && i < j < |args| && StringsEnd(top, args[..i + 1]) <= a
    ensures |StringWrites(top, args)| == |args| && !Covers(StringWrites(top, args)[j], a)
  {
    StringAt(top, args, j);
    StringsApart(top, args, i, j);
  }

  lemma StringCovered(top: int, args: seq<seq<nat>>, i: nat, k: nat, a: nat)
    requires 0 <= StringsEnd(top, args) && i < |args| && k <= |args[i]| && a == StringsEnd(top, args[..i + 1]) + k
    ensures |StringWrites(top, args)| == |args| && Covers(StringWrites(top, args)[i], a)
    ensures StringWrites(top, args)[i].1[a - StringWrites(top, args)[i].0] == (args[i] + [0])[k]
  {
    StringAt(top, args, i);
  }

  lemma OverlayInside(ws: seq<Write>, sw: seq<Write>, w: Write, i: nat, a: nat, b: nat)
    requires i < |sw| && Covers(sw[i], a) && sw[i].1[a - sw[i].0] == b
    requires !Covers(w, a) && forall j :: i < j < |sw| ==> !Covers(sw[j], a)
    ensures Overlay(ws + (sw + [w]), a) == b
  {
    var all := ws + (sw + [w]);
    forall j | |ws| + i < j < |all|
      ensures !Covers(all[j], a)
    {
      if j < |all| - 1 {
        assert all[j] == sw[j - |ws|];
      }
    }
    OverlayIs(all, |ws| + i, a);
  }

  /** Each byte of a string stands where the string was put. */
  lemma StringShows(ws: seq<Write>, top: int, args: seq<seq<nat>>, i: nat, k: nat, a: nat)
    requires 0 <= ArrayAt(top, args) && i < |args| && k <= |args[i]| && a == StringsEnd(top, args[..i + 1]) + k
    ensures Overlay(ws + ArgWrites(top, args), a) == (args[i] + [0])[k]
  {
    ArrayBelow(top, args);
    StringsDown(top, args, i + 1);
    StringCovered(top, args, i, k, a);
    forall j | i < j < |args|
      ensures !Covers(StringWrites(top, args)[j], a)
    {
      StringLast(top, args, i, j, a);
    }
    OverlayInside(ws, StringWrites(top, args), ArrayWrite(top, args), i, a, (args[i] + [0])[k]);
  }

  lemma StringInside(top: int, args: seq<seq<nat>>, j: nat)
    requires 0 <= StringsEnd(top, args) && j < |args|
    ensures |StringWrites(top, args)| == |args|
    ensures var w := StringWrites(top, args)[j]; StringsEnd(top, args) <= w.0 && w.0 + |w.1| <= top
  {
    StringAt(top, args, j);
    StringsDown(top, args[..j], 0);
    StringsNext(top, args[..j + 1]);
    assert args[..j + 1][..j] == args[..j] && args[..j][..0] == [];
  }

  /** The arguments write within the stack page only. */
  lemma ArgsInside(top: int, args: seq<seq<nat>>, j: nat)
    requires 0 <= ArrayAt(top, args) && j < |ArgWrites(top, args)|
    ensures ArrayAt(top, args) <= ArgWrites(top, args)[j].0
    ensures ArgWrites(top, args)[j].0 + |ArgWrites(top, args)[j].1| <= top
  {
    ArrayBelow(top, args);
    StringsDown(top, args, 0);
    if args != [] {
      StringInside(top, args, if j < |args| then j else 0);
    }
  }

  /** Each byte of a segment that no later segment overwrites stands where the program header put it. */
  lemma SegmentShows(segs: seq<Segment>, top: int, args: seq<seq<nat>>, i: nat, a: nat)
    requires Segments(segs) && SegmentsEnd(segs) <= ArrayAt(top, args) && i < |segs|
    requires Covers(SegmentWrites(segs)[i], a)
    requires forall j :: i < j < |segs| ==> !Covers(SegmentWrites(segs)[j], a)
    ensures Overlay(SegmentWrites(segs) + ArgWrites(top, args), a) == segs[i].data[a - segs[i].vaddr]
  {
    var ws, all := SegmentWrites(segs), SegmentWrites(segs) + ArgWrites(top, args);
    SegmentsBelow(segs);
    assert ws[i].0 + |ws[i].1| <= SegmentsEnd(segs);
    forall j | i < j < |all|
      ensures !Covers(all[j], a)
    {
      if j < |ws| {
        assert all[j] == ws[j];
      } else {
        ArgsInside(top, args, j - |ws|);
      }
    }
    OverlayIs(all, i, a);
  }

  /** The number that bytes stand for, the lowest byte first. */
  function Number(bs: seq<nat>): nat { if bs == [] then 0 else bs[0] + 256 * Number(bs[1..]) }

  function Power256(k: nat): nat { if k == 0 then 1 else 256 * Power256(k - 1) }

  lemma {:induction false} NumberBack(x: nat, k: nat)
    requires x < Power256(k)
    ensures Number(Word(x, k)) == x
    decreases k
  {
    if k > 0 {
      NumberBack(x / 256, k - 1);
      assert Word(x, k)[1..] == Word(x / 256, k - 1);
    }
  }

  /** The k bytes that the writes left from a on. */
  function Shown(ws: seq<Write>, a: nat, k: nat): (bs: seq<nat>)
    ensures |bs| == k
  {
    seq<nat>(k, j requires 0 <= j < k => Overlay(ws, a + j))
  }

  lemma ShownLast(ws: seq<Write>, w: Write, at: nat, n: nat, k: nat)
    requires at == w.0 + n && n + k <= |w.1|
    ensures Shown(ws + [w], at, k) == w.1[n..n + k]
  {
    forall j | 0 <= j < k
      ensures Shown(ws + [w], at, k)[j] == w.1[n..n + k][j]
    {
      OverlayIs(ws + [w], |ws|, at + j);
    }
  }

  lemma ShownArray(ws: seq<Write>, top: int, args: seq<seq<nat>>, at: nat, n: nat, k: nat)
    requires 0 <= ArrayAt(top, args) && at == ArrayAt(top, args) + n && n + k <= 8 * |args| + 8
    ensures Shown(ws + ArgWrites(top, args), at, k) == ArrayWrite(top, args).1[n..n + k]
  {
    ArrayBelow(top, args);
    var sw, w := StringWrites(top, args), ArrayWrite(top, args);
    assert ws + (sw + [w]) == (ws + sw) + [w];
    ShownLast(ws + sw, w, at, n, k);
  }

  lemma EndShown(ws: seq<Write>, top: int, args: seq<seq<nat>>, at: nat)
    requires 0 <= ArrayAt(top, args) && at == ArrayAt(top, args) + 8 * |args|
    ensures Shown(ws + ArgWrites(top, args), at, PTRSIZE) == Word(0, PTRSIZE)
  {
    ShownArray(ws, top, args, at, 8 * |args|, PTRSIZE);
  }

  lemma AddressShown(ws: seq<Write>, top: int, args: seq<seq<nat>>, i: nat, at: nat)
    requires 0 <= ArrayAt(top, args) && i < |args| && at == ArrayAt(top, args) + 8 * i
    ensures Shown(ws + ArgWrites(top, args), at, PTRSIZE) == Word(StringsEnd(top, args[..i + 1]), PTRSIZE)
  {
    ShownArray(ws, top, args, at, 8 * i, PTRSIZE);
    AddressAt(top, args, i);
  }

  /** The k bytes from a on. */
  function Loaded(m: Memory, root: nat, a: nat, k: nat): (bs: seq<nat>)
    ensures |bs| == k
  {
    seq<nat>(k, j requires 0 <= j < k => LoadByte(m, root, a + j))
  }

  lemma LoadedShown(m: Memory, root: nat, top: nat, ws: seq<Write>, a: nat, k: nat)
    requires LoadsAs(m, root, top, ws) && a + k <= top
    ensures Loaded(m, root, a, k) == Shown(ws, a, k)
  {
    forall j | 0 <= j < k
      ensures Loaded(m, root, a, k)[j] == Shown(ws, a, k)[j]
    {
      assert LoadsAt(m, root, top, ws, a + j);
    }
  }

  lemma ArrayTop(top: nat, args: seq<seq<nat>>)
    ensures ArrayAt(top, args) + 8 * |args| + 8 <= top && ArrayAt(top, args) % 16 == 0
  {
    ArrayBelow(top, args);
    StringsDown(top, args, 0);
  }

  /** argv ends with a zero, and sp is aligned. */
  lemma EndFound(m: Memory, root: nat, ws: seq<Write>, top: nat, args: seq<seq<nat>>, sp: nat, at: nat)
    requires sp == ArrayAt(top, args) && LoadsAs(m, root, top, ws + ArgWrites(top, args)) && at == sp + 8 * |args|
    ensures Number(Loaded(m, root, at, PTRSIZE)) == 0 && sp % 16 == 0
  {
    ArrayTop(top, args);
    LoadedShown(m, root, top, ws + ArgWrites(top, args), at, PTRSIZE);
    EndShown(ws, top, args, at);
    AddressFits(0);
    NumberBack(0, PTRSIZE);
  }

  lemma AddressFound(m: Memory, root: nat, ws: seq<Write>, top: nat, args: seq<seq<nat>>, sp: nat, i: nat, at: nat,
                     x: nat)
    requires sp == ArrayAt(top, args) && LoadsAs(m, root, top, ws + ArgWrites(top, args)) && i < |args|
    requires x <= MAXVA && at == sp + 8 * i && x == StringsEnd(top, args[..i + 1])
    ensures Number(Loaded(m, root, at, PTRSIZE)) == x
  {
    ArrayTop(top, args);
    LoadedShown(m, root, top, ws + ArgWrites(top, args), at, PTRSIZE);
    AddressShown(ws, top, args, i, at);
    AddressFits(x);
    NumberBack(x, PTRSIZE);
  }

  lemma AddressFits(x: nat)
    requires x <= MAXVA
    ensures x < Power256(PTRSIZE)
  {
    assert Power256(8) == 256 * Power256(7) == 0x1_0000 * Power256(6) == 0x1_0000_0000 * Power256(4);
    assert Power256(4) == 0x1_0000 * Power256(2);
  }

  lemma StringFound(m: Memory, root: nat, ws: seq<Write>, top: nat, args: seq<seq<nat>>, i: nat, k: nat, a: nat)
    requires 0 <= ArrayAt(top, args) && i < |args| && k <= |args[i]| && a == StringsEnd(top, args[..i + 1]) + k
    requires LoadsAs(m, root, top, ws + ArgWrites(top, args))
    ensures LoadByte(m, root, a) == (args[i] + [0])[k]
  {
    StringShows(ws, top, args, i, k, a);
    StringsNext(top, args[..i + 1]);
    assert args[..i + 1][..i] == args[..i] && args[..i][..0] == [];
    StringsDown(top, args[..i], 0);
    assert LoadsAt(m, root, top, ws + ArgWrites(top, args), a);
  }

  /** What main finds in argv[i], at sp + 8 * i: the address of the i-th argument, byte by byte and with its end. */
  lemma ArgumentFound(m: Memory, root: nat, ws: seq<Write>, top: nat, args: seq<seq<nat>>, sp: nat, i: nat, at: nat,
                      k: nat)
    requires top <= MAXVA && sp == ArrayAt(top, args) && i < |args| && at == sp + 8 * i && k <= |args[i]|
    requires LoadsAs(m, root, top, ws + ArgWrites(top, args))
    ensures LoadByte(m, root, Number(Loaded(m, root, at, PTRSIZE)) + k) == (args[i] + [0])[k]
  {
    var x := StringPlace(top, args, i);
    AddressFound(m, root, ws, top, args, sp, i, at, x);
    StringFound(m, root, ws, top, args, i, k, x + k);
  }

  lemma StringPlace(top: nat, args: seq<seq<nat>>, i: nat) returns (x: nat)
    requires 0 <= ArrayAt(top, args) && i < |args|
    ensures x == StringsEnd(top, args[..i + 1]) && x <= top
  {
    ArrayBelow(top, args);
    StringsDown(top, args, i + 1);
    StringsDown(top, args[..i + 1], 0);
    x := StringsEnd(top, args[..i + 1]);
  }

  // ----- pages -----

  /** The tables of an image whose pages were only ever added to. */
  ghost predicate Tabled(o: Pages) { PlaceSet(o.pos) == Places(|o.us|) }

  /** The pages that an image of n pages takes with its tables. */
  function ImageNeeds(n: nat): nat { Tables(n) + n }

  lemma {:induction false} SpanJoin(v: nat, n: nat)
    ensures Span(0, v) + Span(v, n) == Span(0, v + n)
  {
    if n > 0 {
      SpanJoin(v, n - 1);
    }
  }

  lemma PlacesJoin(v: nat, n: nat)
    ensures Places(v) + Span(v, n) == Places(v + n)
  {
    SpanJoin(v, n);
  }

  lemma PlacesFilled(m: Memory, root: nat, pos: map<nat, Pos>, pos': map<nat, Pos>, v: nat, n: nat, us: seq<UPage>)
    requires IsTree(m, root, pos') && Labels(pos, pos', v, n) && PlaceSet(pos) == Places(v)
    requires HoldsAll(m, root, 0, us) && |us| == v + n <= MAXVPN
    ensures PlaceSet(pos') == Places(|us|)
  {
    HoldsValid(m, root, 0, us);
    TreeExactly(m, root, pos, pos', v, n);
    PlacesJoin(v, n);
  }

  lemma TabledMore(c: Config, m: Memory, p: Proc, o: Pages, o': Pages, v: nat, n: nat)
    requires Image(c, m, p, o') && Tabled(o) && Labels(o.pos, o'.pos, v, n) && v == |o.us| && |o'.us| == v + n
    ensures Tabled(o')
  {
    PlacesFilled(m, p.root, o.pos, o'.pos, v, n, o'.us);
  }

  lemma HeldSize(c: Config, m: Memory, p: Proc, o: Pages, f: set<nat>, f0: set<nat>)
    requires Image(c, m, p, o) && o.held !! f && o.held + f == f0
    ensures |f0| == |o.pos.Keys| + |o.us| + |f|
  {
    PaSetSize(o.us);
    SameTotal(o.pos.Keys, PaSet(o.us), o.pos.Keys, PaSet(o.us));
    SameTotal(o.held, f, o.held, f);
  }

  /** A finished image took exactly so many pages. */
  lemma Sufficed(c: Config, m: Memory, p: Proc, o: Pages, f: set<nat>, f0: set<nat>)
    requires Image(c, m, p, o) && Tabled(o) && o.held !! f && o.held + f == f0
    ensures !Fewer(f0, ImageNeeds(|o.us|))
  {
    HeldSize(c, m, p, o, f, f0);
    TreeOneToOne(m, p.root, o.pos);
    PlaceCount(o.pos);
    PlacesExactly(|o.us|);
    FewerExactly(f0, ImageNeeds(|o.us|));
  }

  lemma SpanTables(places: set<Pos>, v: nat, n: nat, k: nat) returns (all: set<Pos>)
    requires places == Places(v) && k == v + n <= MAXVPN
    ensures all == places + Span(v, n) && |all| == Tables(k)
  {
    PlacesJoin(v, n);
    all := Places(k);
    PlacesExactly(k);
  }

  lemma TooFewTables(f: set<nat>, pos: map<nat, Pos>, pos': map<nat, Pos>, places: set<Pos>, v: nat, n: nat, k: nat)
    requires places == PlaceSet(pos) && TooFew(f, pos, pos', v, n) && |places + Span(v, n)| == Tables(k)
    ensures |f| + |pos'.Keys| < Tables(k) + n
  {}

  /** One that uvmalloc could not extend by n pages had too few. */
  lemma Lacked(c: Config, m: Memory, p: Proc, o: Pages, o': Pages, f: set<nat>, f0: set<nat>, v: nat, n: nat, k: nat)
    requires Image(c, m, p, o') && Tabled(o) && |o'.us| == v == |o.us| && o'.held !! f && o'.held + f == f0
    requires TooFew(f, o.pos, o'.pos, v, n) && Fewer(f0, MAXVPN) && k == v + n
    ensures Fewer(f0, ImageNeeds(k))
  {
    HeldSize(c, m, p, o', f, f0);
    FewerExactly(f0, MAXVPN);
    FewerExactly(f0, ImageNeeds(k));
    if k <= MAXVPN {
      var _ := SpanTables(PlaceSet(o.pos), v, n, k);
      TooFewTables(f, o.pos, o'.pos, PlaceSet(o.pos), v, n, k);
    }
  }

  lemma {:induction false} NeedsMore(n: nat, k: nat)
    requires n <= k
    ensures ImageNeeds(n) <= ImageNeeds(k)
  {
    if n < k {
      NeedsMore(n, k - 1);
      CeilSmall(k - 1);
      CeilLarge(k - 1);
    }
  }

  /** Memory is far smaller than the address space. */
  lemma FreeFew(f: set<nat>, hi: nat)
    requires hi <= MAXMEM && forall q :: q in f ==> q % PGSIZE == 0 && q < hi
    ensures Fewer(f, MAXVPN)
  {
    AlignedSize(f, MAXMEM / PGSIZE);
    FewerExactly(f, MAXVPN);
  }

  // ----- exec as a whole -----

  /** The pages of an image with its stack on top: the guard page has no user bit, the stack page is writable. */
  ghost predicate Stacked(us: seq<UPage>) {
    |us| >= 2 && us[|us| - 2].flags == 7 && us[|us| - 1].flags == 23
  }

  lemma StackedWrite(us: seq<UPage>, us': seq<UPage>, va: nat, bs: seq<nat>)
    requires Stacked(us) && Wrote(us, us', va, bs)
    ensures Stacked(us')
  {}

  lemma StackedGuarded(us: seq<UPage>, k: nat)
    requires |us| == k + 2 && ZeroedFrom(us, k, 23)
    ensures Stacked(Guarded(us, k))
  {
    assert us[k].flags == 23 && us[k + 1].flags == 23;
  }

  /** exec has nothing to object to but the number of free pages; it takes a size of zero for uvmalloc's failure. */
  predicate Loadable(segs: seq<Segment>, args: seq<seq<nat>>, stop: nat) {
    |segs| < stop && (segs == [] || segs[0].end > 0) && ArgsFit(ImageSize(segs), args)
  }

  lemma {:induction false} SegmentsGrow(segs: seq<Segment>, i: nat)
    requires i <= |segs|
    ensures SegmentsEnd(segs[..i]) <= SegmentsEnd(segs)
    ensures segs[..i] != [] && segs[0].end > 0 ==> SegmentsEnd(segs[..i]) > 0
    decreases |segs|, i
  {
    if i < |segs| {
      assert segs[..|segs| - 1][..i] == segs[..i];
      SegmentsGrow(segs[..|segs| - 1], i);
    } else {
      assert segs[..i] == segs;
      if i > 1 {
        SegmentsGrow(segs[..i - 1], i - 1);
        assert segs[..i - 1][..i - 1] == segs[..i - 1];
      }
    }
  }

  lemma RoundedMore(a: nat, b: nat)
    requires a <= b
    ensures PageCount(a) <= PageCount(PgRoundUp(b) + 2 * PGSIZE)
  {
    PageCountMonotone(a, b);
    PageCountRounded(PageCount(b) + 2);
  }

  /** Too few pages for some of the segments are too few for the whole image. */
  lemma LackedSoon(segs: seq<Segment>, i: nat, f: set<nat>)
    requires i <= |segs| && Fewer(f, ImageNeeds(PageCount(SegmentsEnd(segs[..i]))))
    ensures Fewer(f, ImageNeeds(PageCount(ImageSize(segs))))
  {
    SegmentsGrow(segs, i);
    var n, k := PageCount(SegmentsEnd(segs[..i])), PageCount(ImageSize(segs));
    RoundedMore(SegmentsEnd(segs[..i]), SegmentsEnd(segs));
    NeedsMore(n, k);
    FewerMore(f, ImageNeeds(n), ImageNeeds(k));
  }

  lemma LackedTables(f: set<nat>, n: nat)
    requires Fewer(f, 3)
    ensures Fewer(f, ImageNeeds(n))
  {
    NeedsMore(0, n);
    FewerMore(f, 3, ImageNeeds(n));
  }

  lemma StackFlags(e: nat)
    ensures Flags(e) == 23 ==> IsValid(e) && User(e) && Writable(e)
    ensures Flags(e) == 7 ==> !User(e)
  {
    FlagBits(e);
    FlagParts(e / 1024, e % 1024);
    EvenPlus(128 * (e / 1024), e % 1024 / 4);
    assert e / 4 == 256 * (e / 1024) + e % 1024 / 4;
  }

  /** copyout reaches the stack page and neither copy reaches the guard page. */
  lemma StackAccess(c: Config, m: Memory, p: Proc, o: Pages)
    requires Image(c, m, p, o) && Stacked(o.us)
    ensures CanStore(m, p.root, |o.us| - 1)
    ensures !CanStore(m, p.root, |o.us| - 2) && !CanLoad(m, p.root, |o.us| - 2)
  {
    var n := |o.us|;
    HoldsAt(m, p.root, 0, o.us, n - 1, n - 1);
    HoldsAt(m, p.root, 0, o.us, n - 2, n - 2);
    StackFlags(Lookup(m, p.root, n - 1));
    StackFlags(Lookup(m, p.root, n - 2));
  }

  lemma OnStack(n: nat, a: nat)
    requires n * PGSIZE - PGSIZE <= a < n * PGSIZE
    ensures PageOf(a) == n - 1
  {}

  function Larger(a: nat, b: nat): nat { if b < a then a else b }

  lemma BelowPages(ws: seq<Write>, sz: nat)
    requires Below(ws, sz)
    ensures Below(ws, PageCount(sz) * PGSIZE)
  {}

  /** Two zeroed pages behind an image, the first of them with its user bit cleared. */
  lemma StackAdded(us: seq<UPage>, us': seq<UPage>, ws: seq<Write>, top: nat)
    requires Shows(us, ws) && Below(ws, |us| * PGSIZE) && top == |us| * PGSIZE + 2 * PGSIZE && |us'| == PageCount(top)
    requires us <= us' && ZeroedFrom(us', |us|, 23)
    ensures (top - 2 * PGSIZE) / PGSIZE == |us| && |us'| == |us| + 2 && us'[|us|].flags == 23
    ensures Shows(Guarded(us', |us|), ws) && Stacked(Guarded(us', |us|))
  {
    var k := |us|;
    PageCountRounded(k + 2);
    ShowsMore(us, us', ws, 23);
    ShowsGuarded(us', k, ws);
    StackedGuarded(us', k);
  }

  /** What uvmalloc's outcome means for the tables of the image. */
  lemma GrownTables(c: Config, m: Memory, p: Proc, o: Pages, o': Pages, f: set<nat>, f0: set<nat>, v: nat, n: nat,
                    sz: nat, end: nat, ok: bool)
    requires Image(c, m, p, o') && Tabled(o) && o'.held !! f && o'.held + f == f0 && Fewer(f0, MAXVPN)
    requires v == |o.us| && (end < sz ==> ok && o' == o)
    requires sz <= end ==> v + n == PageCount(end) && Labels(o.pos, o'.pos, v, n)
    requires if ok then p.sz == Larger(sz, end) else o'.us == o.us && TooFew(f, o.pos, o'.pos, v, n)
    ensures if ok then Tabled(o') else Fewer(f0, ImageNeeds(PageCount(end)))
  {
    if sz <= end {
      if ok {
        TabledMore(c, m, p, o, o', v, n);
      } else {
        Lacked(c, m, p, o, o', f, f0, v, n, PageCount(end));
      }
    }
  }

  lemma SegmentsSoFar(segs: seq<Segment>, i: nat)
    requires Segments(segs) && i < |segs|
    ensures SegmentsEnd(segs[..i + 1]) == Larger(SegmentsEnd(segs[..i]), segs[i].end)
    ensures SegmentWrites(segs[..i + 1]) == SegmentWrites(segs[..i]) + [(segs[i].vaddr, segs[i].data)]
    ensures Below(SegmentWrites(segs[..i]), SegmentsEnd(segs[..i]))
  {
    assert segs[..i + 1][..i] == segs[..i];
    SegmentsBelow(segs[..i]);
  }

  /** The i-th segment was the last that exec tried. */
  lemma SegmentFailed(segs: seq<Segment>, i: nat, f: set<nat>, stop: bool)
    requires 0 < i <= |segs|
    requires stop || SegmentsEnd(segs[..i]) == 0 || Fewer(f, ImageNeeds(PageCount(SegmentsEnd(segs[..i]))))
    ensures stop || segs[0].end == 0 || Fewer(f, ImageNeeds(PageCount(ImageSize(segs))))
  {
    SegmentsGrow(segs, i);
    if !stop && SegmentsEnd(segs[..i]) > 0 {
      LackedSoon(segs, i, f);
    }
  }

  lemma StringNext(top: int, args: seq<seq<nat>>, i: nat, ws: seq<Write>)
    requires i < |args|
    ensures StringsEnd(top, args[..i + 1]) == Aligned(StringsEnd(top, args[..i]) - (|args[i]| + 1))
    ensures StringsEnd(top, args[..i + 1]) + |args[i]| < StringsEnd(top, args[..i])
    ensures 0 <= StringsEnd(top, args[..i + 1]) ==>
              ws + StringWrites(top, args[..i + 1]) ==
              ws + StringWrites(top, args[..i]) + [(StringsEnd(top, args[..i + 1]), args[i] + [0])]
  {
    assert args[..i + 1][..i] == args[..i];
    StringsNext(top, args[..i + 1]);
  }

  /** After the strings of args: where the stack stands, their addresses, and the image with them. */
  ghost predicate Pushed(us: seq<UPage>, top: nat, args: seq<seq<nat>>, sp: nat, ustack: seq<nat>, ws: seq<Write>) {
    && top - PGSIZE <= sp == StringsEnd(top, args) <= top == |us| * PGSIZE && ustack == Addresses(top, args)
    && Shows(us, ws + StringWrites(top, args)) && Stacked(us)
  }

  lemma PushedNone(us: seq<UPage>, top: nat, args: seq<seq<nat>>, ws: seq<Write>)
    requires Shows(us, ws) && Stacked(us) && top == |us| * PGSIZE
    ensures Pushed(us, top, args[..0], top, [], ws)
  {
    assert ws + StringWrites(top, args[..0]) == ws;
  }

  lemma PushedNext(us: seq<UPage>, us': seq<UPage>, top: nat, args: seq<seq<nat>>, i: nat, sp: nat, ustack: seq<nat>,
                   sp': nat, ustack': seq<nat>, ws: seq<Write>)
    requires i < |args| && Pushed(us, top, args[..i], sp, ustack, ws) && |us'| == |us| && Stacked(us')
    requires top - PGSIZE <= sp' == StringsEnd(top, args[..i + 1]) && ustack' == ustack + Word(sp', PTRSIZE)
    requires Shows(us', ws + StringWrites(top, args[..i]) + [(sp', args[i] + [0])])
    ensures Pushed(us', top, args[..i + 1], sp', ustack', ws)
  {
    StringNext(top, args, i, ws);
    NextAddress(top, args, i);
  }

  /** copyout of bytes for the stack page cannot fail, and leaves them there. */
  lemma StackStored(c: Config, m: Memory, m': Memory, p: Proc, o: Pages, ws: seq<Write>, va: nat, src: seq<nat>, k: nat)
    requires Image(c, m, p, o) && Shows(o.us, ws) && Stacked(o.us) && Stored(m, m', p.root, va, src, k)
    requires p.sz == |o.us| * PGSIZE && p.sz - PGSIZE <= va && va + |src| <= p.sz
    requires k < |src| ==> !CanStore(m, p.root, PageOf(va + k))
    ensures k == |src| && Shows(Reread(m', o.us), ws + [(va, src)]) && Stacked(Reread(m', o.us))
  {
    StackAccess(c, m, p, o);
    if k < |src| {
      OnStack(|o.us|, va + k);
      assert false;
    }
    assert src[..k] == src;
    PageCountMonotone(va + |src|, p.sz);
    BytesStored(c, m, p, o, va, src);
    ShowsWrite(o.us, Reread(m', o.us), ws, va, src);
    StackedWrite(o.us, Reread(m', o.us), va, src);
  }

  lemma NextAddress(top: int, args: seq<seq<nat>>, i: nat)
    requires i < |args|
    ensures Addresses(top, args[..i + 1]) == Addresses(top, args[..i]) + Word(StringsEnd(top, args[..i + 1]), PTRSIZE)
  {
    assert args[..i + 1][..i] == args[..i];
  }

  /** No room for some of the strings is no room for all. */
  lemma NoRoom(top: int, args: seq<seq<nat>>, i: nat)
    requires i <= |args| && StringsEnd(top, args[..i]) < top - PGSIZE
    ensures !ArgsFit(top, args)
  {
    StringsDown(top, args, i);
    ArrayBelow(top, args);
  }

  lemma ArgWritesLast(ws: seq<Write>, top: int, args: seq<seq<nat>>)
    requires 0 <= ArrayAt(top, args)
    ensures 0 <= StringsEnd(top, args)
    ensures ws + ArgWrites(top, args) == ws + StringWrites(top, args) + [ArrayWrite(top, args)]
  {
    ArrayBelow(top, args);
  }

  /** Page n refuses copyin and copyout, and copyout reaches the page above it. */
  ghost predicate StackGuarded(m: Memory, root: nat, n: nat) {
    !CanStore(m, root, n) && !CanLoad(m, root, n) && CanStore(m, root, n + 1)
  }

  lemma Finished(c: Config, m: Memory, p: Proc, o: Pages, ws: seq<Write>)
    requires Image(c, m, p, o) && Shows(o.us, ws) && Stacked(o.us)
    ensures LoadsAs(m, p.root, p.sz, ws) && StackGuarded(m, p.root, |o.us| - 2) && p.sz <= MAXVA
  {
    ShowsLoads(c, m, p, o, ws);
    StackAccess(c, m, p, o);
    var n := |o.us|;
    assert n - 2 + 1 == n - 1;
  }
}
