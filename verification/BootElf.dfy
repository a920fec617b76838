/** Bytes as numbers. */
module ByteValue {
  lemma ByteBack(n: nat)
    requires n < 256
    ensures (n as bv8) as nat == n
  {}
}

/** The kernel image as an ELF file written field by field, and what the loader's readers find in it. */
module BootElf {
  import opened Sha256
  import opened Boot
  import V = ByteValue

  // ---------------------------------------------------------------- the file format

  /** The file header: four bytes of magic, twelve of identification, and the fields of section "ELF Header". */
  datatype FileHeader = FileHeader(
    magic: nat, ident: seq<Byte>, kind: nat, machine: nat, version: nat, entry: nat, phoff: nat, shoff: nat, flags: nat,
    ehsize: nat, phentsize: nat, phnum: nat, shentsize: nat, shnum: nat, shstrndx: nat)

  datatype ProgramHeader = ProgramHeader(
    kind: nat, flags: nat, off: nat, vaddr: nat, paddr: nat, filesz: nat, memsz: nat, align: nat)

  const HALF := 0x1_0000
  const WORD := 0x1_0000_0000

  predicate GoodFile(h: FileHeader) {
    && h.magic < WORD && |h.ident| == 12 && h.kind < HALF && h.machine < HALF && h.version < WORD
    && h.entry < WRAP && h.phoff < WRAP && h.shoff < WRAP && h.flags < WORD
    && h.ehsize < HALF && h.phentsize < HALF && h.phnum < HALF
    && h.shentsize < HALF && h.shnum < HALF && h.shstrndx < HALF
  }

  predicate GoodProgram(p: ProgramHeader) {
    && p.kind < WORD && p.flags < WORD && p.off < WRAP && p.vaddr < WRAP && p.paddr < WRAP && p.filesz < WRAP
    && p.memsz < WRAP && p.align < WRAP
  }

  /** n as k bytes, least significant first. */
  function Bytes(n: nat, k: nat): (bs: seq<Byte>)
    ensures |bs| == k
  {
    if k == 0 then [] else [(n % 256) as Byte] + Bytes(n / 256, k - 1)
  }

  function Power256(k: nat): (m: nat)
    ensures m > 0
  {
    if k == 0 then 1 else 256 * Power256(k - 1)
  }

  /** A number reads back from its bytes. */
  lemma {:induction false} NumberBack(mem: seq<Byte>, a: nat, n: nat, k: nat)
    requires a + k <= |mem| && mem[a..a + k] == Bytes(n, k) && n < Power256(k)
    ensures Little(mem, a, a + k) == n
    decreases k
  {
    if k > 0 {
      V.ByteBack(n % 256);
      assert mem[a] == mem[a..a + k][0];
      assert mem[a + 1..a + k] == mem[a..a + k][1..];
      assert mem[a..a + k][1..] == Bytes(n / 256, k - 1);
      NumberBack(mem, a + 1, n / 256, k - 1);
    }
  }

  // The fields in the order of the file, each followed by the rest.
  function FileBytes(h: FileHeader): seq<Byte> {
    Bytes(h.magic, 4) + (h.ident + (Bytes(h.kind, 2) + (Bytes(h.machine, 2) + (Bytes(h.version, 4)
    + (Bytes(h.entry, 8) + (Bytes(h.phoff, 8) + (Bytes(h.shoff, 8) + (Bytes(h.flags, 4) + Sizes(h)))))))))
  }

  function Sizes(h: FileHeader): seq<Byte> {
    Bytes(h.ehsize, 2) + (Bytes(h.phentsize, 2) + (Bytes(h.phnum, 2)
    + (Bytes(h.shentsize, 2) + (Bytes(h.shnum, 2) + Bytes(h.shstrndx, 2)))))
  }

  function ProgramBytes(p: ProgramHeader): seq<Byte> {
    Bytes(p.kind, 4) + (Bytes(p.flags, 4) + (Bytes(p.off, 8) + (Bytes(p.vaddr, 8)
    + (Bytes(p.paddr, 8) + (Bytes(p.filesz, 8) + (Bytes(p.memsz, 8) + Bytes(p.align, 8)))))))
  }

  /** The bytes bs stand in memory at address a. */
  predicate Stands(mem: seq<Byte>, a: nat, bs: seq<Byte>) { a + |bs| <= |mem| && mem[a..a + |bs|] == bs }

  lemma Parts(mem: seq<Byte>, a: nat, x: seq<Byte>, y: seq<Byte>)
    requires Stands(mem, a, x + y)
    ensures Stands(mem, a, x) && Stands(mem, a + |x|, y)
  {
    assert mem[a..a + |x|] == mem[a..a + |x + y|][..|x|];
    assert mem[a + |x|..a + |x| + |y|] == mem[a..a + |x + y|][|x|..];
  }

  /** One field and what follows it. */
  lemma Field(mem: seq<Byte>, a: nat, n: nat, k: nat, rest: seq<Byte>)
    requires Stands(mem, a, Bytes(n, k) + rest) && n < Power256(k)
    ensures a + k <= |mem| && Little(mem, a, a + k) == n && Stands(mem, a + k, rest)
  {
    Parts(mem, a, Bytes(n, k), rest);
    NumberBack(mem, a, n, k);
  }

  lemma Powers()
    ensures Power256(2) == HALF && Power256(4) == WORD && Power256(8) == WRAP
  {
    assert Power256(4) == 256 * (256 * Power256(2));
    assert Power256(6) == 256 * (256 * Power256(4));
    assert Power256(8) == 256 * (256 * Power256(6));
  }

  /** Where the tables are. */
  lemma Offsets(mem: seq<Byte>, d: nat, h: FileHeader)
    requires GoodFile(h) && Stands(mem, d, FileBytes(h))
    ensures d + 52 <= |mem| && Little(mem, d + 32, d + 40) == h.phoff && Little(mem, d + 40, d + 48) == h.shoff
    ensures Stands(mem, d + 52, Sizes(h))
  {
    Powers();
    var after8 := Bytes(h.flags, 4) + Sizes(h);
    var after7 := Bytes(h.shoff, 8) + after8;
    var after6 := Bytes(h.phoff, 8) + after7;
    var after5 := Bytes(h.entry, 8) + after6;
    var after4 := Bytes(h.version, 4) + after5;
    var after3 := Bytes(h.machine, 2) + after4;
    var after2 := Bytes(h.kind, 2) + after3;
    Field(mem, d, h.magic, 4, h.ident + after2);
    Parts(mem, d + 4, h.ident, after2);
    Field(mem, d + 16, h.kind, 2, after3);
    Field(mem, d + 18, h.machine, 2, after4);
    Field(mem, d + 20, h.version, 4, after5);
    Field(mem, d + 24, h.entry, 8, after6);
    Field(mem, d + 32, h.phoff, 8, after7);
    Field(mem, d + 40, h.shoff, 8, after8);
    Field(mem, d + 48, h.flags, 4, Sizes(h));
  }

  /** How large their entries are, and how many. */
  lemma EntrySizes(mem: seq<Byte>, d: nat, h: FileHeader)
    requires GoodFile(h) && Stands(mem, d + 52, Sizes(h))
    ensures d + 64 <= |mem| && Little(mem, d + 54, d + 56) == h.phentsize
    ensures Little(mem, d + 58, d + 60) == h.shentsize && Little(mem, d + 60, d + 62) == h.shnum
  {
    Powers();
    var after4 := Bytes(h.shnum, 2) + Bytes(h.shstrndx, 2);
    var after3 := Bytes(h.shentsize, 2) + after4;
    var after2 := Bytes(h.phnum, 2) + after3;
    var after1 := Bytes(h.phentsize, 2) + after2;
    Field(mem, d + 52, h.ehsize, 2, after1);
    Field(mem, d + 54, h.phentsize, 2, after2);
    Field(mem, d + 56, h.phnum, 2, after3);
    Field(mem, d + 58, h.shentsize, 2, after4);
    Field(mem, d + 60, h.shnum, 2, Bytes(h.shstrndx, 2));
  }

  lemma ProgramAddress(mem: seq<Byte>, a: nat, p: ProgramHeader)
    requires GoodProgram(p) && Stands(mem, a, ProgramBytes(p))
    ensures a + 24 <= |mem| && Little(mem, a + 16, a + 24) == p.vaddr
  {
    Powers();
    var after4 := Bytes(p.paddr, 8) + (Bytes(p.filesz, 8) + (Bytes(p.memsz, 8) + Bytes(p.align, 8)));
    var after3 := Bytes(p.vaddr, 8) + after4;
    var after2 := Bytes(p.off, 8) + after3;
    Field(mem, a, p.kind, 4, Bytes(p.flags, 4) + after2);
    Field(mem, a + 4, p.flags, 4, after2);
    Field(mem, a + 8, p.off, 8, after3);
    Field(mem, a + 16, p.vaddr, 8, after4);
  }

  /** The address of program header i. */
  function EntryAt(d: nat, h: FileHeader, i: nat): nat { d + h.phoff + i * h.phentsize }

  ghost predicate ProgramAt(mem: seq<Byte>, a: nat, p: ProgramHeader) {
    GoodProgram(p) && Stands(mem, a, ProgramBytes(p))
  }

  /** An image: the file header, and the program headers one entry size apart. */
  ghost predicate IsElf(mem: seq<Byte>, d: nat, h: FileHeader, ps: seq<ProgramHeader>) {
    && GoodFile(h) && Stands(mem, d, FileBytes(h)) && |ps| == h.phnum
    && forall i :: 0 <= i < |ps| ==> ProgramAt(mem, EntryAt(d, h, i), ps[i])
  }

  lemma SizeRead(mem: seq<Byte>, d: nat, h: FileHeader)
    requires GoodFile(h) && Stands(mem, d, FileBytes(h))
    ensures d + 64 <= |mem| && KernelSize(mem, d) == (h.shoff + h.shentsize * h.shnum) % WRAP
    ensures Phoff(mem, d) == h.phoff && Phentsize(mem, d) == h.phentsize
  {
    Offsets(mem, d, h);
    EntrySizes(mem, d, h);
  }

  lemma SecondEntry(mem: seq<Byte>, d: nat, h: FileHeader, ps: seq<ProgramHeader>)
    requires IsElf(mem, d, h, ps) && |ps| >= 2
    ensures ProgramAt(mem, d + h.phoff + h.phentsize, ps[1])
  {
    assert ProgramAt(mem, EntryAt(d, h, 1), ps[1]);
    assert EntryAt(d, h, 1) == d + h.phoff + h.phentsize;
  }

  /**
    What the loader takes for the kernel's size is the end of the section headers, where a linker ends the file; and
    where it loads the kernel is the virtual address of the second program header.
   */
  lemma HeadersRead(mem: seq<Byte>, d: nat, h: FileHeader, ps: seq<ProgramHeader>)
    requires IsElf(mem, d, h, ps) && |ps| >= 2
    ensures d + 64 <= |mem| && KernelSize(mem, d) == (h.shoff + h.shentsize * h.shnum) % WRAP
    ensures d + Phoff(mem, d) + Phentsize(mem, d) + 24 <= |mem| && LoadAddr(mem, d) == ps[1].vaddr
  {
    SizeRead(mem, d, h);
    SecondEntry(mem, d, h, ps);
    ProgramAddress(mem, d + h.phoff + h.phentsize, ps[1]);
  }
}
