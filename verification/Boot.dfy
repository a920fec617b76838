/** The boot loader: measuring the kernel image on the RAM disk, comparing digests, and placing the image in memory. */
module Boot {

  import opened Sha256

  const BSIZE := 1024
  const FSSIZE := 2000
  const HEADER_BLOCKS := 4
  const WRAP := 0x1_0000_0000_0000_0000

  // ---------------------------------------------------------------- the ELF header readers

  /** The bytes from address a up to e, least significant first. */
  function Little(mem: seq<Byte>, a: nat, e: nat): nat
    requires a <= e <= |mem|
    decreases e - a
  {
    if a == e then 0 else mem[a] as nat + 256 * Little(mem, a + 1, e)
  }

  // The fields of the file header at address d, and the virtual address in the program header at address a.
  function Phoff(mem: seq<Byte>, d: nat): nat requires d + 64 <= |mem| { Little(mem, d + 32, d + 40) }

  function Shoff(mem: seq<Byte>, d: nat): nat requires d + 64 <= |mem| { Little(mem, d + 40, d + 48) }

  function Phentsize(mem: seq<Byte>, d: nat): nat requires d + 64 <= |mem| { Little(mem, d + 54, d + 56) }

  function Shentsize(mem: seq<Byte>, d: nat): nat requires d + 64 <= |mem| { Little(mem, d + 58, d + 60) }

  function Shnum(mem: seq<Byte>, d: nat): nat requires d + 64 <= |mem| { Little(mem, d + 60, d + 62) }

  function Vaddr(mem: seq<Byte>, a: nat): nat requires a + 24 <= |mem| { Little(mem, a + 16, a + 24) }

  /** find_kernel_size: up to the end of the section headers, in 64-bit arithmetic. */
  function KernelSize(mem: seq<Byte>, d: nat): nat
    requires d + 64 <= |mem|
  {
    (Shoff(mem, d) + Shentsize(mem, d) * Shnum(mem, d)) % WRAP
  }

  /** find_kernel_load_addr: the virtual address of the second program header. */
  function LoadAddr(mem: seq<Byte>, d: nat): nat
    requires d + 64 <= |mem| && d + Phoff(mem, d) + Phentsize(mem, d) + 24 <= |mem|
  {
    Vaddr(mem, d + Phoff(mem, d) + Phentsize(mem, d))
  }

  // ---------------------------------------------------------------- what may be assumed of an image

  function Image(mem: seq<Byte>, d: nat): (img: seq<Byte>)
    requires d + FSSIZE * BSIZE <= |mem|
    ensures |img| == FSSIZE * BSIZE
  {
    mem[d..d + FSSIZE * BSIZE]
  }

  function Blocks(size: nat): nat { size / BSIZE }

  /** Bytes placed in memory when the first n blocks have been handled: all but the header blocks. */
  function Placed(n: nat): nat { if n <= HEADER_BLOCKS then 0 else (n - HEADER_BLOCKS) * BSIZE }

  /**
   * The image's size fits the RAM disk and the int product, its second program header lies on the disk, and the range
   * it loads into is in memory and clear of the disk.
   */
  ghost predicate Loadable(mem: seq<Byte>, d: nat) {
    && d + FSSIZE * BSIZE <= |mem|
    && Shentsize(mem, d) * Shnum(mem, d) < 0x8000_0000 && KernelSize(mem, d) < FSSIZE * BSIZE
    && Phoff(mem, d) + Phentsize(mem, d) + 24 <= FSSIZE * BSIZE
    && var load, n := LoadAddr(mem, d), Placed(Blocks(KernelSize(mem, d)));
       load + n <= |mem| && (load + n <= d || d + FSSIZE * BSIZE <= load)
  }

  /** Memory with the loaded part of the first n blocks of img at address load. */
  function Loaded(mem: seq<Byte>, load: nat, img: seq<Byte>, n: nat): (m: seq<Byte>)
    requires load + Placed(n) <= |mem| && n * BSIZE <= |img|
    ensures |m| == |mem|
  {
    if n <= HEADER_BLOCKS then mem
    else mem[..load] + img[HEADER_BLOCKS * BSIZE..n * BSIZE] + mem[load + Placed(n)..]
  }

  lemma {:induction false} LittleSame(mem: seq<Byte>, mem': seq<Byte>, a: nat, e: nat)
    requires |mem| == |mem'| && a <= e <= |mem| && forall i :: a <= i < e ==> mem'[i] == mem[i]
    ensures Little(mem', a, e) == Little(mem, a, e)
    decreases e - a
  {
    if a < e {
      LittleSame(mem, mem', a + 1, e);
    }
  }

  lemma OnDisk(mem: seq<Byte>, mem': seq<Byte>, d: nat, a: nat, e: nat)
    requires d + FSSIZE * BSIZE <= |mem| == |mem'| && Image(mem, d) == Image(mem', d)
    requires d <= a <= e <= d + FSSIZE * BSIZE
    ensures Little(mem', a, e) == Little(mem, a, e)
  {
    forall i | a <= i < e
      ensures mem'[i] == mem[i]
    {
      assert mem[i] == Image(mem, d)[i - d] && mem'[i] == Image(mem', d)[i - d];
    }
    LittleSame(mem, mem', a, e);
  }

  lemma FieldsSame(mem: seq<Byte>, mem': seq<Byte>, d: nat)
    requires d + FSSIZE * BSIZE <= |mem| == |mem'| && Image(mem, d) == Image(mem', d)
    ensures Phoff(mem', d) == Phoff(mem, d) && Shoff(mem', d) == Shoff(mem, d)
    ensures Phentsize(mem', d) == Phentsize(mem, d)
    ensures Shentsize(mem', d) == Shentsize(mem, d) && Shnum(mem', d) == Shnum(mem, d)
  {
    OnDisk(mem, mem', d, d + 32, d + 40);
    OnDisk(mem, mem', d, d + 40, d + 48);
    OnDisk(mem, mem', d, d + 54, d + 56);
    OnDisk(mem, mem', d, d + 58, d + 60);
    OnDisk(mem, mem', d, d + 60, d + 62);
  }

  lemma AddrSame(mem: seq<Byte>, mem': seq<Byte>, d: nat)
    requires d + FSSIZE * BSIZE <= |mem| == |mem'| && Image(mem, d) == Image(mem', d)
    requires Phoff(mem, d) + Phentsize(mem, d) + 24 <= FSSIZE * BSIZE
    ensures Phoff(mem', d) + Phentsize(mem', d) + 24 <= FSSIZE * BSIZE && LoadAddr(mem', d) == LoadAddr(mem, d)
  {
    FieldsSame(mem, mem', d);
    var a := d + Phoff(mem, d) + Phentsize(mem, d);
    OnDisk(mem, mem', d, a + 16, a + 24);
  }

  lemma SizeSame(mem: seq<Byte>, mem': seq<Byte>, d: nat)
    requires d + FSSIZE * BSIZE <= |mem| == |mem'| && Image(mem, d) == Image(mem', d)
    ensures KernelSize(mem', d) == KernelSize(mem, d)
    ensures Shentsize(mem', d) * Shnum(mem', d) == Shentsize(mem, d) * Shnum(mem, d)
  {
    FieldsSame(mem, mem', d);
  }

  /** The headers depend on the disk only. */
  lemma HeadersSame(mem: seq<Byte>, mem': seq<Byte>, d: nat)
    requires Loadable(mem, d) && |mem| == |mem'| && Image(mem, d) == Image(mem', d)
    ensures Loadable(mem', d) && KernelSize(mem', d) == KernelSize(mem, d) && LoadAddr(mem', d) == LoadAddr(mem, d)
  {
    SizeSame(mem, mem', d);
    AddrSame(mem, mem', d);
  }

  /** Placing the image leaves the disk alone. */
  lemma LoadedImage(mem: seq<Byte>, d: nat, load: nat, img: seq<Byte>, n: nat)
    requires d + FSSIZE * BSIZE <= |mem| && load + Placed(n) <= |mem| && n * BSIZE <= |img|
    requires load + Placed(n) <= d || d + FSSIZE * BSIZE <= load
    ensures Image(Loaded(mem, load, img, n), d) == Image(mem, d)
  {
    var m := Loaded(mem, load, img, n);
    forall i | d <= i < d + FSSIZE * BSIZE
      ensures m[i] == mem[i]
    {}
  }

  /** Every byte placed is one of the size bytes that were measured, and every other byte of memory is as before. */
  lemma LoadedBytes(mem: seq<Byte>, load: nat, img: seq<Byte>, size: nat, a: nat)
    requires load + Placed(Blocks(size)) <= |mem| && size <= |img| && a < |mem|
    ensures var m, n := Loaded(mem, load, img, Blocks(size)), Placed(Blocks(size));
      if load <= a < load + n then 4096 + (a - load) < size && m[a] == img[..size][4096 + (a - load)]
      else m[a] == mem[a]
  {}

  lemma WholeAndRest(size: nat, n: nat, rem: int)
    requires size < FSSIZE * BSIZE && n == size / BSIZE && rem == size - BSIZE * n
    ensures n == Blocks(size) && n < FSSIZE && 0 <= rem < BSIZE && size == n * BSIZE + rem
  {}

  lemma FewerBlocks(size: nat)
    requires size < FSSIZE * BSIZE
    ensures size / FSSIZE <= Blocks(size) < FSSIZE
  {}

  // The bytes of block i of img.
  function BlockOf(img: seq<Byte>, i: nat): (b: seq<Byte>)
    requires (i + 1) * BSIZE <= |img|
    ensures |b| == BSIZE
  {
    img[i * BSIZE..(i + 1) * BSIZE]
  }

  /** Memory with b written at address a. */
  function Written(mem: seq<Byte>, a: nat, b: seq<Byte>): (m: seq<Byte>)
    requires a + |b| <= |mem|
    ensures |m| == |mem|
  {
    mem[..a] + b + mem[a + |b|..]
  }

  lemma WrittenAfter(mem: seq<Byte>, load: nat, x: seq<Byte>, y: seq<Byte>)
    requires load + |x| + |y| <= |mem|
    ensures Written(mem[..load] + x + mem[load + |x|..], load + |x|, y)
         == mem[..load] + (x + y) + mem[load + |x| + |y|..]
  {
    var m := mem[..load] + x + mem[load + |x|..];
    assert m[..load + |x|] == mem[..load] + x;
    assert m[load + |x| + |y|..] == mem[load + |x| + |y|..];
  }

  /** Block by block, the range fills up in order. */
  lemma LoadedNext(mem: seq<Byte>, load: nat, img: seq<Byte>, i: nat)
    requires HEADER_BLOCKS <= i && load + Placed(i + 1) <= |mem| && (i + 1) * BSIZE <= |img|
    ensures Written(Loaded(mem, load, img, i), load + (i - HEADER_BLOCKS) * BSIZE, BlockOf(img, i))
         == Loaded(mem, load, img, i + 1)
  {
    var lo, mid, hi := HEADER_BLOCKS * BSIZE, i * BSIZE, (i + 1) * BSIZE;
    assert img[lo..mid] + img[mid..hi] == img[lo..hi];
    if i == HEADER_BLOCKS {
      assert mem[..load] + img[lo..mid] + mem[load..] == mem;
    }
    WrittenAfter(mem, load, img[lo..mid], img[mid..hi]);
  }

  /** Writing a block again where it already is changes nothing. */
  lemma LoadedAgain(mem: seq<Byte>, load: nat, img: seq<Byte>, n: nat, i: nat)
    requires HEADER_BLOCKS <= i < n && load + Placed(n) <= |mem| && n * BSIZE <= |img|
    ensures var m := Loaded(mem, load, img, n); Written(m, load + (i - HEADER_BLOCKS) * BSIZE, BlockOf(img, i)) == m
  {
    var m, a := Loaded(mem, load, img, n), load + (i - HEADER_BLOCKS) * BSIZE;
    assert a + BSIZE <= load + Placed(n);
    assert m[a..a + BSIZE] == BlockOf(img, i);
    assert m == m[..a] + m[a..a + BSIZE] + m[a + BSIZE..];
  }

  /** The digest of msg, with the compression function the context was made with. */
  ghost predicate Measured(digest: seq<Byte>, f: (Vars, Block512) -> Vars, msg: seq<Byte>) {
    8 * |msg| < WRAP64 && digest == HashWith(f, msg)
  }

  class Loader {
    const mem: array<Byte>
    const disk: nat
    const ctx: Context
    // The two measurements in the system information table, and the digest built into the loader.
    const observed: array<Byte>
    const expected: array<Byte>
    const trusted: seq<Byte>

    constructor (mem: array<Byte>, disk: nat, ctx: Context, observed: array<Byte>, expected: array<Byte>,
                 trusted: seq<Byte>)
      ensures this.mem == mem && this.disk == disk && this.ctx == ctx
      ensures this.observed == observed && this.expected == expected && this.trusted == trusted
    {
      this.mem, this.disk, this.ctx := mem, disk, ctx;
      this.observed, this.expected, this.trusted := observed, expected, trusted;
    }

    ghost predicate Shape()
      reads this, ctx
    {
      && ctx.Shape() && |trusted| == 32 && observed.Length == 32 && expected.Length == 32
      && mem != observed && mem != expected && mem != ctx.data && observed != expected && observed != ctx.data
      && expected != ctx.data
      && disk + FSSIZE * BSIZE <= mem.Length
    }

    /** kernel_copy: one block of the RAM disk. A block number off the disk is its panic. */
    method KernelCopy(blockno: nat, b: array<Byte>)
      requires disk + FSSIZE * BSIZE <= mem.Length && blockno < FSSIZE && b.Length == BSIZE && b != mem
      modifies b
      ensures b[..] == BlockOf(Image(mem[..], disk), blockno)
    {
      var a := disk + blockno * BSIZE;
      forall i | 0 <= i < BSIZE {
        b[i] := mem[a + i];
      }
      ghost var img := Image(mem[..], disk);
      assert forall i :: 0 <= i < BSIZE ==> b[i] == img[blockno * BSIZE + i];
    }

    /** The memmove into the load range. */
    method Place(a: nat, b: array<Byte>)
      requires a + BSIZE <= mem.Length && b.Length == BSIZE && b != mem
      modifies mem
      ensures mem[..] == Written(old(mem[..]), a, b[..])
    {
      forall i | 0 <= i < BSIZE {
        mem[a + i] := b[i];
      }
    }

    /** sha256_update with r bytes of the buffer, the next ones of the image after the first k. */
    method Absorb(b: array<Byte>, r: nat, ghost img: seq<Byte>, ghost k: nat)
      requires ctx.Valid() && r <= b.Length <= BSIZE && k + r <= |img| && ctx.msg == img[..k] && b[..r] == img[k..k + r]
      modifies ctx, ctx.data, ctx.state
      ensures ctx.Valid() && ctx.msg == img[..k + r]
    {
      ctx.Update(b[..r]);
      assert img[..k] + img[k..k + r] == img[..k + r];
    }

    /**
      One turn of the loop of is_secure_boot up to the hashing: block i is read, and placed unless it is a
      header block.
     */
    method FetchBlock(load: nat, i: nat, b: array<Byte>, ghost m: seq<Byte>, ghost img: seq<Byte>)
      requires |m| == mem.Length && disk + FSSIZE * BSIZE <= |m| && img == Image(m, disk) && i < FSSIZE
      requires b.Length == BSIZE && b != mem
      requires load + Placed(i + 1) <= |m| && (load + Placed(i + 1) <= disk || disk + FSSIZE * BSIZE <= load)
      requires mem[..] == Loaded(m, load, img, i)
      modifies mem, b
      ensures mem[..] == Loaded(m, load, img, i + 1) && b[..] == BlockOf(img, i)
    {
      LoadedImage(m, disk, load, img, i);
      KernelCopy(i, b);
      if i >= HEADER_BLOCKS {
        LoadedNext(m, load, img, i);
        Place(load + (i - HEADER_BLOCKS) * BSIZE, b);
      }
    }

    /** One turn of the loop. */
    method MeasureBlock(load: nat, i: nat, b: array<Byte>, ghost m: seq<Byte>, ghost img: seq<Byte>)
      requires Shape() && |m| == mem.Length && img == Image(m, disk) && i < FSSIZE && b.Length == BSIZE && b != mem
      requires b != ctx.data
      requires load + Placed(i + 1) <= |m| && (load + Placed(i + 1) <= disk || disk + FSSIZE * BSIZE <= load)
      requires ctx.Valid() && ctx.msg == img[..i * BSIZE] && mem[..] == Loaded(m, load, img, i)
      modifies mem, ctx, ctx.data, ctx.state, b
      ensures ctx.Valid() && ctx.msg == img[..(i + 1) * BSIZE] && mem[..] == Loaded(m, load, img, i + 1)
    {
      FetchBlock(load, i, b, m, img);
      assert b[..BSIZE] == b[..] == img[i * BSIZE..i * BSIZE + BSIZE];
      Absorb(b, BSIZE, img, i * BSIZE);
    }

    /** The loop of is_secure_boot: the whole blocks of the image are hashed, and all but the first four placed. */
    method MeasureBlocks(load: nat, n: nat, b: array<Byte>, ghost img: seq<Byte>)
      requires Shape() && ctx.Valid() && ctx.msg == [] && b.Length == BSIZE && b != mem && b != ctx.data && n < FSSIZE
      requires img == Image(mem[..], disk) && load + Placed(n) <= mem.Length
      requires (load + Placed(n) <= disk || disk + FSSIZE * BSIZE <= load)
      modifies mem, ctx, ctx.data, ctx.state, b
      ensures ctx.Valid() && ctx.msg == img[..n * BSIZE] && mem[..] == Loaded(old(mem[..]), load, img, n)
    {
      ghost var m := mem[..];
      var i := 0;
      while i < n
        invariant 0 <= i <= n && ctx.Valid() && ctx.msg == img[..i * BSIZE]
        invariant mem[..] == Loaded(m, load, img, i)
      {
        MeasureBlock(load, i, b, m, img);
        i := i + 1;
      }
    }

    /** is_secure_boot for a given size and load address, up to the comparison. */
    method Measure(load: nat, size: nat, ghost img: seq<Byte>)
      requires Shape() && size < FSSIZE * BSIZE && img == Image(mem[..], disk)
      requires load + Placed(Blocks(size)) <= mem.Length
      requires load + Placed(Blocks(size)) <= disk || disk + FSSIZE * BSIZE <= load
      modifies mem, ctx, ctx.data, ctx.state, observed
      ensures Measured(observed[..], ctx.f, img[..size]) && mem[..] == Loaded(old(mem[..]), load, img, Blocks(size))
    {
      ghost var m := mem[..];
      var n := size / BSIZE;
      var rem := size - BSIZE * n;
      WholeAndRest(size, n, rem);
      var b := new Byte[BSIZE];
      ctx.Init();
      MeasureBlocks(load, n, b, img);
      LoadedImage(m, disk, load, img, n);
      MeasureRest(n, rem, size, b, img);
    }

    /** The bytes after the last whole block, and the end of the hash. */
    method MeasureRest(n: nat, rem: nat, ghost size: nat, b: array<Byte>, ghost img: seq<Byte>)
      requires Shape() && img == Image(mem[..], disk) && n < FSSIZE && rem < BSIZE && size == n * BSIZE + rem
      requires ctx.Valid() && ctx.msg == img[..n * BSIZE] && b.Length == BSIZE && b != mem && b != ctx.data
      modifies ctx, ctx.data, ctx.state, observed, b
      ensures Measured(observed[..], ctx.f, img[..size])
    {
      KernelCopy(n, b);
      assert b[..rem] == img[n * BSIZE..n * BSIZE + rem];
      Absorb(b, rem, img, n * BSIZE);
      ctx.Final(observed);
    }

    /**
     * is_secure_boot. The digest covers the first size bytes of the image, exactly; what memory then holds at the load
     * address is the image from byte 4096 up to the last whole block, which the digest covered; nothing else in memory
     * changed. The answer is whether the digest is the trusted one.
     */
    method IsSecureBoot() returns (verification: bool)
      requires Shape() && Loadable(mem[..], disk)
      modifies mem, ctx, ctx.data, ctx.state, observed, expected
      ensures var m := old(mem[..]); var size, img := KernelSize(m, disk), Image(m, disk);
        && Measured(observed[..], ctx.f, img[..size]) && expected[..] == trusted
        && (verification <==> Measured(trusted, ctx.f, img[..size]))
        && mem[..] == Loaded(m, LoadAddr(m, disk), img, Blocks(size))
    {
      ghost var m := mem[..];
      var load, size := LoadAddr(mem[..], disk), KernelSize(mem[..], disk);
      Measure(load, size, Image(m, disk));
      forall i | 0 <= i < 32 {
        expected[i] := trusted[i];
      }
      verification := observed[..] == expected[..];
    }

    /**
      The second loop, in start: it divides by the number of disk blocks, and only puts bytes where they already
      are.
     */
    method LoadAgain(load: nat, size: nat, ghost m: seq<Byte>, ghost img: seq<Byte>)
      requires |m| == mem.Length && disk + FSSIZE * BSIZE <= |m| && img == Image(m, disk) && size < FSSIZE * BSIZE
      requires load + Placed(Blocks(size)) <= |m|
      requires (load + Placed(Blocks(size)) <= disk || disk + FSSIZE * BSIZE <= load)
      requires mem[..] == Loaded(m, load, img, Blocks(size))
      modifies mem
      ensures mem[..] == old(mem[..])
    {
      var b := new Byte[BSIZE];
      var n := size / FSSIZE;
      var i := 0;
      FewerBlocks(size);
      LoadedImage(m, disk, load, img, Blocks(size));
      while i < n
        invariant 0 <= i <= n && mem[..] == old(mem[..])
      {
        if i >= HEADER_BLOCKS {
          LoadBlockAgain(load, i, Blocks(size), b, m, img);
        }
        i := i + 1;
      }
    }

    method LoadBlockAgain(load: nat, i: nat, ghost n: nat, b: array<Byte>, ghost m: seq<Byte>, ghost img: seq<Byte>)
      requires |m| == mem.Length && disk + FSSIZE * BSIZE <= |m| && |img| == FSSIZE * BSIZE && b.Length == BSIZE
      requires b != mem
      requires HEADER_BLOCKS <= i < n < FSSIZE && load + Placed(n) <= |m| && mem[..] == Loaded(m, load, img, n)
      requires Image(mem[..], disk) == img
      modifies mem, b
      ensures mem[..] == old(mem[..])
    {
      KernelCopy(i, b);
      LoadedAgain(m, load, img, n, i);
      assert load + (i - HEADER_BLOCKS) * BSIZE + BSIZE <= load + Placed(n);
      Place(load + (i - HEADER_BLOCKS) * BSIZE, b);
    }

    /**
      start up to the jump: the kernel is entered only if its image is the trusted one, and then with what was
      measured.
     */
    method Start() returns (booted: bool)
      requires Shape() && Loadable(mem[..], disk)
      modifies mem, ctx, ctx.data, ctx.state, observed, expected
      ensures var m := old(mem[..]); var size, img := KernelSize(m, disk), Image(m, disk);
        && (booted <==> Measured(trusted, ctx.f, img[..size])) && Measured(observed[..], ctx.f, img[..size])
        && expected[..] == trusted
        && mem[..] == Loaded(m, LoadAddr(m, disk), img, Blocks(size))
    {
      ghost var m := mem[..];
      ghost var img := Image(m, disk);
      booted := IsSecureBoot();
      if !booted {
        return;
      }
      LoadedImage(m, disk, LoadAddr(m, disk), img, Blocks(KernelSize(m, disk)));
      HeadersSame(m, mem[..], disk);
      var load, size := LoadAddr(mem[..], disk), KernelSize(mem[..], disk);
      LoadAgain(load, size, m, img);
    }
  }

  lemma MeasuredIsHash(digest: seq<Byte>, msg: seq<Byte>)
    requires 8 * |msg| < WRAP64
    ensures Measured(digest, Compress, msg) <==> digest == Hash(msg)
  {}

  /**
   * The loader as built, with its own hash context: control passes to the kernel exactly when the SHA-256 digest of the
   * image's first size bytes is the trusted one; memory then holds bytes that this digest covers.
   */
  method BootKernel(mem: array<Byte>, disk: nat, observed: array<Byte>, expected: array<Byte>, trusted: seq<Byte>)
    returns (booted: bool)
    requires Loadable(mem[..], disk) && |trusted| == 32 && observed.Length == 32 && expected.Length == 32
    requires mem != observed && mem != expected && observed != expected
    modifies mem, observed, expected
    ensures var m := old(mem[..]); var size, img := KernelSize(m, disk), Image(m, disk);
      && (booted <==> trusted == Hash(img[..size])) && observed[..] == Hash(img[..size]) && expected[..] == trusted
      && mem[..] == Loaded(m, LoadAddr(m, disk), img, Blocks(size))
  {
    ghost var size, img := KernelSize(mem[..], disk), Image(mem[..], disk);
    var ctx := new Context();
    var loader := new Loader(mem, disk, ctx, observed, expected, trusted);
    booted := loader.Start();
    MeasuredIsHash(trusted, img[..size]);
    MeasuredIsHash(observed[..], img[..size]);
  }
}
